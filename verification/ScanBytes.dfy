/**
  The tag-stripping machine works on single bytes. On the UTF-8 form of a text it emits
  the UTF-8 form of what it emits on the characters.
 */
module ScanBytes {
  import opened Text
  import opened ByteText
  import opened HtmlScanner

  lemma {:induction false} ThroughSkip(x: string, rest: string, c: char)
    requires c !in x
    ensures Through(x + rest, c) == |x| + Through(rest, c)
  {
    if x == "" {
      assert x + rest == rest;
    } else {
      assert (x + rest)[0] == x[0] && x[0] in x && (x + rest)[1..] == x[1..] + rest;
      ThroughSkip(x[1..], rest, c);
    }
  }

  lemma {:induction false} ThroughStep(r: string, c: char)
    requires r != ""
    ensures Through(r, c) == if r[0] == c then 1 else 1 + Through(r[1..], c)
  {
  }

  lemma {:induction false} ThroughCommutes(t: string, c: char)
    requires IsAscii(c)
    ensures Through(TextBytes(t), c) == |TextBytes(t[..Through(t, c)])|
  {
    hide CharBytes, IsAscii, Through, TextBytes;
    if t == "" {
      assert t[..Through(t, c)] == t;
      assert TextBytes("") == "" by { NoBytes(); }
    } else {
      var rest, n := t[1..], Through(t[1..], c);
      ThroughCommutes(rest, c);
      ThroughStep(t, c);
      TextBytesHead(t);
      if t[0] == c {
        assert t[..1] == [c] && [c][1..] == "";
        FirstByte(t);
        ThroughStep(TextBytes(t), c);
        TextBytesHead([c]);
        NoBytes();
      } else {
        assert t[..n + 1] == [t[0]] + rest[..n] && t[..n + 1][1..] == rest[..n];
        TextBytesHead(t[..n + 1]);
        assert c !in CharBytes(t[0]);
        ThroughSkip(CharBytes(t[0]), TextBytes(rest), c);
      }
    }
  }

  lemma {:induction false} NameRunCommutes(t: string)
    ensures NameRun(TextBytes(t)) == NameRun(t)
    ensures AllAscii(NameRun(t))
  {
    hide CharBytes;
    if t != "" {
      var b := TextBytes(t);
      NameRunCommutes(t[1..]);
      if IsAscii(t[0]) {
        assert b[0] == t[0] && b[1..] == TextBytes(t[1..]);
      } else {
        assert b[0] == CharBytes(t[0])[0] && b[0] in CharBytes(t[0]);
      }
    }
  }

  lemma {:induction false} TagNameCommutes(t: string)
    ensures TagName(TextBytes(t)) == TagName(t)
  {
    hide CharBytes, NameRun, AsciiLower;
    NameRunCommutes(t);
    if t != "" {
      FirstByte(t);
      NameRunCommutes(t[1..]);
    }
  }

  // ---------------------------------------------------------------------------
  // Single moves
  // ---------------------------------------------------------------------------

  /** The move `m'` on the bytes does what `m` does on the characters of `t`. */
  ghost predicate Commutes(t: string, m: Move, m': Move) {
    && m.skip <= |t|
    && m'.emit == TextBytes(m.emit) && m'.next == m.next && m'.skip == |TextBytes(t[..m.skip])|
  }

  /** Skipping an ASCII start and then some more. */
  lemma {:induction false} SkipLength(t: string, k: nat, n: nat)
    requires k + n <= |t| && AllAscii(t[..k])
    ensures |TextBytes(t[..k + n])| == k + |TextBytes(t[k..][..n])|
    ensures k <= |TextBytes(t)| && TextBytes(t)[k..] == TextBytes(t[k..]) && TextBytes(t)[..k] == t[..k]
  {
    hide TextBytes, AllAscii;
    TextBytesCut(t, k);
    assert t[..k + n] == t[..k] + t[k..][..n];
    TextBytesConcat(t[..k], t[k..][..n]);
    TextBytesAscii(t[..k]);
  }

  lemma NoBytes()
    ensures TextBytes("") == ""
  {
  }

  /** One ASCII character that is skipped. */
  lemma {:induction false} SkipOne(t: string)
    requires t != "" && IsAscii(t[0])
    ensures TextBytes(t) != "" && TextBytes(t)[0] == t[0] && TextBytes(t)[1..] == TextBytes(t[1..])
    ensures |TextBytes(t[..1])| == 1 && TextBytes("") == ""
    ensures forall n :: 0 <= n <= |t| - 1 ==> |TextBytes(t[..1 + n])| == 1 + |TextBytes(t[1..][..n])|
  {
    hide TextBytes;
    FirstByte(t);
    NoBytes();
    forall n | 0 <= n <= |t| - 1
      ensures |TextBytes(t[..1 + n])| == 1 + |TextBytes(t[1..][..n])|
    {
      SkipLength(t, 1, n);
    }
    assert t[1..][..0] == "";
  }

  lemma {:induction false} QuoteAwareCommutes(t: string, st: State)
    requires t != "" && IsAscii(t[0])
    ensures Commutes(t, QuoteAwareMove(t, st), QuoteAwareMove(TextBytes(t), st))
  {
    hide TextBytes, Through, IsAscii, Commutes;
    FirstByte(t);
    if t[0] == '\'' || t[0] == '"' {
      QuoteCommutes(t, st);
    } else {
      OneSkipCommutes(t, if t[0] == '>' then InText else st);
    }
  }

  lemma {:induction false} OneAscii(t: string)
    requires t != "" && IsAscii(t[0])
    ensures AllAscii(t[..1])
  {
  }

  lemma {:induction false} QuoteCommutes(t: string, st: State)
    requires t != "" && IsAscii(t[0])
    ensures Commutes(t, Move("", 1 + Through(t[1..], t[0]), st), Move("", 1 + Through(TextBytes(t)[1..], t[0]), st))
  {
    hide TextBytes, Through, IsAscii, AllAscii;
    assert AllAscii(t[..1]) by { OneAscii(t); }
    NoBytes();
    SkipLength(t, 1, Through(t[1..], t[0]));
    ThroughCommutes(t[1..], t[0]);
  }

  lemma {:induction false} RawMoveStarts(t: string, closing: string, st: State)
    requires t != "" && closing != "" && closing[0] == '<'
    ensures RawMove(t, closing, st) == if |closing| < |t| && StartsLower(t, closing)
              then Move("", |closing| + Through(t[|closing|..], '>'), InText) else Move("", 1, st)
  {
    if |closing| < |t| && StartsLower(t, closing) {
      assert AsciiLower(t[..|closing|])[0] == AsciiLowerChar(t[0]);
    }
  }

  lemma {:induction false} RawCommutes(t: string, closing: string, st: State)
    requires t != "" && IsAscii(t[0]) && closing != "" && closing[0] == '<' && AllAscii(closing)
    ensures Commutes(t, RawMove(t, closing, st), RawMove(TextBytes(t), closing, st))
  {
    hide TextBytes, RawMove, StartsLower, AllAscii, IsAscii, Commutes;
    FirstByte(t);
    RawMoveStarts(t, closing, st);
    RawMoveStarts(TextBytes(t), closing, st);
    LowerPrefixCommutes(t, closing);
    if StartsLower(t, closing) {
      LowerPrefixLength(t, closing);
      RawClosingCommutes(t, |closing|);
      if |closing| == |t| { OneSkipCommutes(t, st); }
    } else {
      OneSkipCommutes(t, st);
    }
  }

  lemma {:induction false} OneSkipCommutes(t: string, st: State)
    requires t != "" && IsAscii(t[0])
    ensures Commutes(t, Move("", 1, st), Move("", 1, st))
  {
    hide TextBytes, IsAscii;
    NoBytes();
    assert t[..1] == [t[0]];
    OneByte(t[0]);
  }

  lemma {:induction false} RawClosingCommutes(t: string, k: nat)
    requires k <= |t| && AllAscii(t[..k])
    ensures k <= |TextBytes(t)| && (k < |TextBytes(t)| <==> k < |t|)
    ensures Commutes(t, Move("", k + Through(t[k..], '>'), InText),
                     Move("", k + Through(TextBytes(t)[k..], '>'), InText))
  {
    hide TextBytes, Through, AllAscii, IsAscii;
    assert IsAscii('>') by { MarkIsAscii(); }
    NoBytes();
    SkipLength(t, k, Through(t[k..], '>'));
    ThroughCommutes(t[k..], '>');
    TextBytesLength(t[k..]);
  }

  lemma {:induction false} CommentCommutes(t: string)
    requires t != "" && IsAscii(t[0])
    ensures Commutes(t, NextMove(t, InComment), NextMove(TextBytes(t), InComment))
  {
    hide TextBytes;
    NoBytes();
    PrefixCommutes(t, "-->");
    SkipLength(t, 1, 0);
    assert t[1..][..0] == "";
    if "-->" <= t {
      SkipLength(t, 3, 0);
      assert t[3..][..0] == "";
    }
  }

  lemma {:induction false} CDataCommutes(t: string)
    requires 1 <= |t| && t[0] == '<' && "![CDATA[" <= t[1..]
    ensures 1 <= |TextBytes(t)| && "![CDATA[" <= TextBytes(t)[1..]
    ensures Commutes(t, CDataMove(t), CDataMove(TextBytes(t)))
  {
    hide TextBytes, IndexOf, At, IsAscii, AllAscii, Commutes, CDataMove;
    assert IsAscii('<') by { MarkIsAscii(); }
    FirstByte(t);
    MarksAreAscii();
    PrefixCommutes(t[1..], "![CDATA[");
    CDataHead(t);
    SkipLength(t, 3, 0);
    IndexCommutes(t[3..], "]]>");
    IndexCommutes(t, ">");
    if IndexOf(t[3..], "]]>") >= 0 { CDataFoundCommutes(t); } else { CDataOpenCommutes(t); }
  }

  lemma MarkIsAscii()
    ensures IsAscii('<') && IsAscii('>')
  {
  }

  lemma {:induction false} CDataFoundCommutes(t: string)
    requires 9 <= |t| && "![CDATA[" <= t[1..] && AllAscii(t[..9]) && AllAscii(t[..3])
    requires 3 <= |TextBytes(t)| && "![CDATA[" <= TextBytes(t)[1..]
    requires TextBytes(t)[3..] == TextBytes(t[3..])
    requires IndexOf(t[3..], "]]>") >= 0
    requires IndexOf(TextBytes(t[3..]), "]]>") == |TextBytes(t[3..][..IndexOf(t[3..], "]]>")])|
    ensures Commutes(t, CDataMove(t), CDataMove(TextBytes(t)))
  {
    hide TextBytes, IndexOf, At, IsAscii, AllAscii;
    CDataEnd(t);
    EndInside(t[3..], "]]>");
    CDataParts(t, IndexOf(t[3..], "]]>"));
  }

  lemma {:induction false} CDataOpenCommutes(t: string)
    requires 1 <= |t| && "![CDATA[" <= t[1..] && AllAscii(t[..1])
    requires 3 <= |TextBytes(t)| && "![CDATA[" <= TextBytes(t)[1..]
    requires IndexOf(t[3..], "]]>") < 0 && IndexOf(TextBytes(t)[3..], "]]>") < 0
    requires var i, j := IndexOf(t, ">"), IndexOf(TextBytes(t), ">");
             if i < 0 then j < 0 else i <= |t| && j == |TextBytes(t[..i])|
    ensures Commutes(t, CDataMove(t), CDataMove(TextBytes(t)))
  {
    hide TextBytes, IndexOf, At, IsAscii, AllAscii;
    NoBytes();
    if IndexOf(t, ">") >= 0 {
      EndInside(t, ">");
      MarksAreAscii();
      MarkBehind(t, IndexOf(t, ">"), ">");
    } else {
      SkipLength(t, 1, 0);
      assert t[1..][..0] == "";
    }
  }

  lemma {:induction false} CDataHead(t: string)
    requires 1 <= |t| && t[0] == '<' && "![CDATA[" <= t[1..]
    ensures |t| >= 9 && t[..9] == "<![CDATA["
    ensures AllAscii(t[..1]) && AllAscii(t[..3]) && AllAscii(t[..9])
  {
    assert t[..9] == [t[0]] + t[1..][..8];
    assert t[..3] == t[..9][..3] && t[..1] == t[..9][..1];
  }

  lemma {:induction false} EndInside(s: string, p: string)
    requires IndexOf(s, p) >= 0
    ensures IndexOf(s, p) + |p| <= |s| && s[IndexOf(s, p)..][..|p|] == p
  {
    hide IndexOf;
    var i := IndexOf(s, p);
    assert s[i..i + |p|] == s[i..][..|p|];
  }

  /** A text up to and including an ASCII mark. */
  lemma {:induction false} MarkBehind(t: string, i: nat, p: string)
    requires i + |p| <= |t| && t[i..][..|p|] == p && AllAscii(p)
    ensures |TextBytes(t[..i + |p|])| == |TextBytes(t[..i])| + |p|
  {
    assert t[..i + |p|] == t[..i] + p;
    TextBytesConcat(t[..i], p);
    TextBytesAscii(p);
  }

  lemma {:induction false} CDataParts(t: string, end: nat)
    requires 9 <= |t| && AllAscii(t[..9]) && AllAscii(t[..3]) && 6 <= end && 3 + end + 3 <= |t|
    requires t[3..][end..][..3] == "]]>"
    ensures var end' := |TextBytes(t[3..][..end])|;
            && 6 <= end' && 3 + end' + 3 <= |TextBytes(t)|
            && TextBytes(t)[9..3 + end'] == TextBytes(t[9..3 + end])
            && |TextBytes(t[..3 + end + 3])| == 3 + end' + 3
  {
    hide TextBytes, AllAscii;
    assert t[..3 + end] == t[..9] + t[9..3 + end] == t[..3] + t[3..][..end];
    TextBytesConcat(t[..9], t[9..3 + end]);
    TextBytesConcat(t[..3], t[3..][..end]);
    TextBytesAscii(t[..9]);
    TextBytesAscii(t[..3]);
    assert t[3 + end..][..3] == t[3..][end..][..3];
    assert AllAscii("]]>") by { MarksAreAscii(); }
    MarkBehind(t, 3 + end, "]]>");
    TextBytesSplit(t, 3 + end);
    TextBytesSplit(t, 3 + end + 3);
  }

  lemma MarksAreAscii()
    ensures AllAscii("]]>") && AllAscii(">") && AllAscii("!--") && AllAscii("![CDATA[")
    ensures AllAscii("</script") && AllAscii("</style")
  {
  }

  lemma {:induction false} CloseCommutes(t: string)
    requires 2 <= |t| && t[0] == '<' && t[1] == '/' && 2 <= |TextBytes(t)| && TextBytes(t)[1] == '/'
    ensures Commutes(t, CloseMove(t), CloseMove(TextBytes(t)))
  {
    hide TextBytes, Through, TagName, IsBlockTag;
    NoBytes();
    FirstByte(t);
    TagNameCommutes(t[1..]);
    var name := TagName(t[1..]);
    BreakBytes(name);
    SkipLength(t, 1, Through(t[1..], '>'));
    ThroughCommutes(t[1..], '>');
    if name == "script" || name == "style" {
      var k := 2 + |name|;
      NameIsAscii(t);
      SkipLength(t, k, Through(t[k..], '>'));
      ThroughCommutes(t[k..], '>');
    }
  }

  /** The name read behind `</` stands there as ASCII. */
  lemma {:induction false} NameIsAscii(t: string)
    requires 2 <= |t| && t[0] == '<' && t[1] == '/'
    ensures 2 + |TagName(t[1..])| <= |t| && AllAscii(t[..2 + |TagName(t[1..])|])
  {
    var run := NameRun(t[1..][1..]);
    NameRunCommutes(t[1..][1..]);
    assert t[1..][1..] == t[2..];
    assert t[..2 + |run|] == [t[0], t[1]] + t[2..][..|run|];
  }

  lemma {:induction false} BreakBytes(name: string)
    ensures TextBytes(BlockBreak(name)) == BlockBreak(name)
  {
    hide IsBlockTag;
    TextBytesAscii(BlockBreak(name));
  }

  lemma {:induction false} OpenCommutes(t: string)
    requires 2 <= |t| && t[0] == '<' && 2 <= |TextBytes(t)|
    ensures Commutes(t, OpenMove(t), OpenMove(TextBytes(t)))
  {
    hide TextBytes, Through, TagName, IsBlockTag;
    NoBytes();
    FirstByte(t);
    TagNameCommutes(t[1..]);
    BreakBytes(TagName(t[1..]));
    SkipLength(t, 1, Through(t[1..], '>'));
    SkipLength(t, 1, 0);
    assert t[1..][..0] == "";
    ThroughCommutes(t[1..], '>');
  }

  /** A character that starts no tag. */
  predicate IsText(r: string)
    requires r != ""
  {
    r[0] != '<' || |r| == 1 || (!IsLetter(r[1]) && r[1] != '/' && r[1] != '!')
  }

  lemma {:induction false} TextKept(r: string)
    requires r != "" && IsText(r)
    ensures TextMove(r) == Move([r[0]], 1, InText)
  {
  }

  lemma {:induction false} IsTextCommutes(t: string)
    requires t != "" && IsAscii(t[0])
    ensures TextBytes(t) != "" && (IsText(TextBytes(t)) <==> IsText(t))
    ensures !IsText(t) ==> |TextBytes(t)| >= 2 && TextBytes(t)[0] == '<' && TextBytes(t)[1] == t[1]
  {
    hide TextBytes;
    SkipOne(t);
    TextBytesLength(t[1..]);
    if |t| > 1 {
      FirstByte(t[1..]);
      assert TextBytes(t)[1] == TextBytes(t[1..])[0];
    }
  }

  lemma {:induction false} TextCommutes(t: string)
    requires t != "" && IsAscii(t[0])
    ensures Commutes(t, TextMove(t), TextMove(TextBytes(t)))
  {
    hide TextBytes, TextMove, IsText, IsAscii;
    SkipOne(t);
    IsTextCommutes(t);
    if IsText(t) {
      TextKept(t);
      TextKept(TextBytes(t));
      assert t[..1] == [t[0]];
      OneByte(t[0]);
    } else {
      MarkStart(t);
      assert TextBytes(t)[1..] == TextBytes(t[1..]);
      MarksAreAscii();
      PrefixCommutes(t[1..], "!--");
      PrefixCommutes(t[1..], "![CDATA[");
      MarkCommutes(t);
    }
  }

  lemma {:induction false} OneByte(c: char)
    requires IsAscii(c)
    ensures TextBytes([c]) == [c]
  {
    TextBytesAscii([c]);
  }

  lemma {:induction false} MarkStart(t: string)
    requires t != "" && !IsText(t)
    ensures 2 <= |t| && t[0] == '<' && (IsLetter(t[1]) || t[1] == '/' || t[1] == '!')
  {
  }

  /** A '<' that may start a tag. */
  lemma {:induction false} MarkCommutes(t: string)
    requires 2 <= |t| && t[0] == '<' && (IsLetter(t[1]) || t[1] == '/' || t[1] == '!')
    requires 2 <= |TextBytes(t)| && TextBytes(t)[0] == '<' && TextBytes(t)[1] == t[1]
    requires "!--" <= TextBytes(t)[1..] <==> "!--" <= t[1..]
    requires "![CDATA[" <= TextBytes(t)[1..] <==> "![CDATA[" <= t[1..]
    ensures Commutes(t, TextMove(t), TextMove(TextBytes(t)))
  {
    hide TextBytes, CDataMove, CloseMove, OpenMove;
    NoBytes();
    if "!--" <= t[1..] {
      assert t[..4] == [t[0]] + t[1..][..3];
      SkipLength(t, 4, 0);
      assert t[4..][..0] == "";
    } else if "![CDATA[" <= t[1..] {
      CDataCommutes(t);
    } else if t[1] == '!' {
      SkipLength(t, 2, 0);
      assert t[2..][..0] == "";
    } else if t[1] == '/' {
      CloseCommutes(t);
    } else {
      OpenCommutes(t);
    }
  }

  lemma {:induction false} MoveCommutes(t: string, st: State)
    requires t != "" && IsAscii(t[0])
    ensures TextBytes(t) != "" && Commutes(t, NextMove(t, st), NextMove(TextBytes(t), st))
  {
    hide TextBytes, QuoteAwareMove, RawMove, TextMove, Commutes;
    FirstByte(t);
    MarksAreAscii();
    match st
    case InText => TextCommutes(t);
    case InTag => QuoteAwareCommutes(t, InTag);
    case InScript => RawCommutes(t, "</script", InScript);
    case InStyle => RawCommutes(t, "</style", InStyle);
    case InComment => CommentCommutes(t);
    case InDoctype => QuoteAwareCommutes(t, InDoctype);
  }

  // ---------------------------------------------------------------------------
  // The whole scan
  // ---------------------------------------------------------------------------

  /** Characters outside ASCII are text in the text state, and otherwise skipped. */
  lemma {:induction false} OtherMove(r: string, st: State)
    requires r != "" && !IsAscii(r[0])
    ensures NextMove(r, st) == Move(if st == InText then [r[0]] else "", 1, st)
  {
  }

  lemma {:induction false} ScanOthers(x: string, rest: string, st: State)
    requires forall c :: c in x ==> !IsAscii(c)
    ensures Scan(x + rest, st) == (if st == InText then x else "") + Scan(rest, st)
  {
    hide Scan, NextMove, IsAscii;
    if x == "" {
      assert x + rest == rest;
    } else {
      var r := x + rest;
      assert r[0] == x[0] && x[0] in x && r[1..] == x[1..] + rest;
      assert forall c :: c in x[1..] ==> c in x;
      OtherMove(r, st);
      ScanStep(r, st);
      ScanOthers(x[1..], rest, st);
      assert [x[0]] + x[1..] == x;
    }
  }

  /** Scanning the bytes of a text gives the bytes of the scanned text. */
  lemma {:induction false} ScanCommutes(t: string, st: State)
    ensures Scan(TextBytes(t), st) == TextBytes(Scan(t, st))
    decreases |t|
  {
    hide Scan, NextMove, IsAscii, CharBytes, TextBytes;
    NoBytes();
    if t == "" {
      ScanEmpty(st);
    } else {
      ScanStep(t, st);
      if IsAscii(t[0]) {
        MoveCommutes(t, st);
        var m, m' := NextMove(t, st), NextMove(TextBytes(t), st);
        ScanStep(TextBytes(t), st);
        TextBytesSplit(t, m.skip);
        ScanCommutes(t[m.skip..], m.next);
        TextBytesConcat(m.emit, Scan(t[m.skip..], m.next));
      } else {
        OtherMove(t, st);
        TextBytesHead(t);
        ScanOthers(CharBytes(t[0]), TextBytes(t[1..]), st);
        ScanCommutes(t[1..], st);
        var rest := Scan(t[1..], st);
        TextBytesHead([t[0]] + rest);
        assert ([t[0]] + rest)[1..] == rest && "" + rest == rest && "" + TextBytes(rest) == TextBytes(rest);
      }
    }
  }

  lemma {:induction false} ScanEmpty(st: State)
    ensures Scan("", st) == ""
  {
  }
}
