/**
  The tag-stripping state machine of `StripHTML`, before the white-space clean-up.

  `Scan` says what the machine emits for the rest of the input in a given state;
  `StripTags` is the index loop of the program, proved to emit exactly that. The program
  runs over bytes: a string here is any byte string with each byte written as a character,
  or a text, which `ScanBytes` proves to come to the same.
 */
module HtmlScanner {
  import opened Text

  /** Elements that leave a newline behind. */
  predicate IsBlockTag(name: string) {
    name in {
      "p", "div", "br", "hr", "h1", "h2", "h3", "h4", "h5", "h6", "blockquote", "pre",
      "table", "tr", "th", "td", "li", "ol", "ul", "dl", "dt", "dd", "section", "article",
      "nav", "header", "footer", "aside", "details", "summary", "figure", "figcaption"
    }
  }

  datatype State = InText | InTag | InScript | InStyle | InComment | InDoctype

  /** One move: what is emitted, how many characters are consumed, the next state. */
  datatype Move = Move(emit: string, skip: nat, next: State)

  predicate IsNameChar(c: char) {
    IsLetter(c) || c == '-' || IsDigit(c)
  }

  /** The longest prefix of tag-name characters. */
  function NameRun(r: string): (n: string)
    ensures n <= r
  {
    if r != "" && IsNameChar(r[0]) then [r[0]] + NameRun(r[1..]) else ""
  }

  /** The lower-case tag name at the start of `r`, after an optional slash. */
  function TagName(r: string): (n: string)
    ensures |n| <= |r| && (r != "" && r[0] == '/' ==> |n| < |r|)
  {
    AsciiLower(NameRun(if r != "" && r[0] == '/' then r[1..] else r))
  }

  /** How many characters run up to and including the first `c`, or to the end. */
  function Through(r: string, c: char): (n: nat)
    ensures n <= |r|
    ensures r != "" ==> 0 < n
    ensures c in r ==> 0 < n && r[n - 1] == c && c !in r[..n - 1]
    ensures c !in r ==> n == |r|
  {
    if r == "" then 0 else if r[0] == c then 1 else 1 + Through(r[1..], c)
  }

  function BlockBreak(name: string): string {
    if IsBlockTag(name) then "\n" else ""
  }

  /** Inside `<...>`: quoted stretches are skipped whole, '>' ends the tag. */
  function QuoteAwareMove(r: string, st: State): Move
    requires r != ""
  {
    if r[0] == '>' then Move("", 1, InText)
    else if r[0] == '\'' || r[0] == '"' then Move("", 1 + Through(r[1..], r[0]), st)
    else Move("", 1, st)
  }

  /** Inside a raw-text element: only its own closing tag leaves it. */
  function RawMove(r: string, closing: string, st: State): Move
    requires r != ""
  {
    if r[0] == '<' && |closing| < |r| && AsciiLower(r[..|closing|]) == closing
    then Move("", |closing| + Through(r[|closing|..], '>'), InText)
    else Move("", 1, st)
  }

  /** The text after `<![` starts with `CDATA[`, so no `]]>` is found before offset 6. */
  lemma {:induction false} CDataEnd(r: string)
    requires 1 <= |r| && "![CDATA[" <= r[1..]
    ensures |r| >= 9 && r[3..9] == "CDATA["
    ensures IndexOf(r[3..], "]]>") < 0 || 6 <= IndexOf(r[3..], "]]>")
  {
    assert r[3..9] == r[1..][2..8];
    var end := IndexOf(r[3..], "]]>");
    if end >= 0 {
      assert r[3..][end] == r[3..][end..end + 3][0] == ']';
      assert forall k :: 0 <= k < 6 ==> r[3..][k] == r[3..9][k];
    }
  }

  /** A CDATA section is kept verbatim; an unclosed one is skipped up to '>'. */
  function CDataMove(r: string): (m: Move)
    requires 1 <= |r| && "![CDATA[" <= r[1..]
    ensures 0 < m.skip <= |r| && |m.emit| <= m.skip
  {
    CDataEnd(r);
    var end := IndexOf(r[3..], "]]>");
    if end >= 0 then Move(r[9..3 + end], 3 + end + 3, InText)
    else
      var gt := IndexOf(r, ">");
      if gt >= 0 then Move("", gt + 1, InText) else Move("", 1, InText)
  }

  function CloseMove(r: string): Move
    requires 2 <= |r| && r[1] == '/'
  {
    var name := TagName(r[1..]);
    if name == "script" || name == "style"
    then Move("", 2 + |name| + Through(r[2 + |name|..], '>'), InText)
    else Move(BlockBreak(name), 1 + Through(r[1..], '>'), InText)
  }

  function OpenMove(r: string): Move
    requires 2 <= |r|
  {
    var name := TagName(r[1..]);
    if name == "script" then Move("", 1 + Through(r[1..], '>'), InScript)
    else if name == "style" then Move("", 1 + Through(r[1..], '>'), InStyle)
    else Move(BlockBreak(name), 1, InTag)
  }

  function TextMove(r: string): Move
    requires r != ""
  {
    if r[0] != '<' || |r| == 1 then Move([r[0]], 1, InText)
    else if !IsLetter(r[1]) && r[1] != '/' && r[1] != '!' then Move([r[0]], 1, InText)
    else if "!--" <= r[1..] then Move("", 4, InComment)
    else if "![CDATA[" <= r[1..] then CDataMove(r)
    else if r[1] == '!' then Move("", 2, InDoctype)
    else if r[1] == '/' then CloseMove(r)
    else OpenMove(r)
  }

  function NextMove(r: string, st: State): (m: Move)
    requires r != ""
    ensures 0 < m.skip <= |r| && |m.emit| <= m.skip
  {
    match st
    case InText => TextMove(r)
    case InTag => QuoteAwareMove(r, InTag)
    case InScript => RawMove(r, "</script", InScript)
    case InStyle => RawMove(r, "</style", InStyle)
    case InComment => if "-->" <= r then Move("", 3, InText) else Move("", 1, InComment)
    case InDoctype => QuoteAwareMove(r, InDoctype)
  }

  /** Everything the machine emits for the remaining input `r` from state `st`. */
  function Scan(r: string, st: State): string
    decreases |r|
  {
    if r == "" then ""
    else
      var m := NextMove(r, st);
      m.emit + Scan(r[m.skip..], m.next)
  }

  lemma {:induction false} ScanStep(r: string, st: State)
    requires r != ""
    ensures var m := NextMove(r, st); Scan(r, st) == m.emit + Scan(r[m.skip..], m.next)
  {
    hide NextMove;
  }

  // ---------------------------------------------------------------------------
  // The loop of the program
  // ---------------------------------------------------------------------------

  method ReadTagName(s: string) returns (name: string)
    ensures name == TagName(s)
  {
    hide AsciiLower, IsNameChar;
    var i := 0;
    if i < |s| && s[i] == '/' { i := i + 1; }
    ghost var run := NameRun(s[i..]);
    assert TagName(s) == AsciiLower(run) by { assert i == 0 ==> s[i..] == s; }
    var n := "";
    while i < |s| && IsNameChar(s[i])
      invariant 0 <= i <= |s| && n + NameRun(s[i..]) == run
    {
      assert s[i..][1..] == s[i + 1..];
      n := n + [s[i]];
      i := i + 1;
    }
    assert NameRun(s[i..]) == "";
    name := AsciiLower(n);
  }

  /** The skip loop `for i < len(s) && s[i] != c { i++ }` and the step over `c`. */
  method SkipThrough(s: string, start: nat, c: char) returns (i: nat)
    requires start <= |s|
    ensures i == start + Through(s[start..], c) && i <= |s|
  {
    i := start;
    while i < |s| && s[i] != c
      invariant start <= i <= |s|
      invariant start + Through(s[start..], c) == i + Through(s[i..], c)
    {
      i := i + 1;
    }
    if i < |s| { i := i + 1; }
  }

  method StepCData(s: string, start: nat) returns (emit: string, i: nat)
    requires start < |s| && "![CDATA[" <= s[start + 1..]
    ensures start < i <= |s| && Move(emit, i - start, InText) == CDataMove(s[start..])
  {
    ghost var r := s[start..];
    assert s[start + 1..] == r[1..];
    CDataEnd(r);
    assert s[start + 3..] == r[3..];
    var end := IndexOf(s[start + 3..], "]]>");
    if end >= 0 {
      assert s[start + 3 + 6..start + 3 + end] == r[9..3 + end];
      return s[start + 3 + 6..start + 3 + end], start + 3 + end + 3;
    }
    end := IndexOf(s[start..], ">");
    emit, i := "", if end >= 0 then start + end + 1 else start + 1;
  }

  method StepClose(s: string, start: nat) returns (emit: string, i: nat)
    requires start + 1 < |s| && s[start + 1] == '/'
    ensures start < i <= |s| && Move(emit, i - start, InText) == CloseMove(s[start..])
  {
    hide IsBlockTag, TagName, Through, AsciiLower;
    ghost var r := s[start..];
    assert s[start + 1..] == r[1..];
    var name := ReadTagName(s[start + 1..]);
    emit := "";
    if name == "script" || name == "style" {
      i := start + 2 + |name|;
      assert s[i..] == r[2 + |name|..];
      i := SkipThrough(s, i, '>');
    } else {
      if IsBlockTag(name) { emit := "\n"; }
      i := SkipThrough(s, start + 1, '>');
    }
  }

  method StepOpen(s: string, start: nat) returns (emit: string, i: nat, st: State)
    requires start + 1 < |s|
    ensures start < i <= |s| && Move(emit, i - start, st) == OpenMove(s[start..])
  {
    hide IsBlockTag, TagName, Through, AsciiLower;
    ghost var r := s[start..];
    assert s[start + 1..] == r[1..];
    var name := ReadTagName(s[start + 1..]);
    emit := "";
    if name == "script" {
      i := SkipThrough(s, start + 1, '>');
      st := InScript;
    } else if name == "style" {
      i := SkipThrough(s, start + 1, '>');
      st := InStyle;
    } else {
      if IsBlockTag(name) { emit := "\n"; }
      i, st := start + 1, InTag;
    }
  }

  /** The `stateText` case: what is written, where the index goes, the next state. */
  method StepText(s: string, start: nat) returns (emit: string, i: nat, st: State)
    requires start < |s|
    ensures start < i <= |s| && Move(emit, i - start, st) == TextMove(s[start..])
  {
    emit, i, st := "", start, InText;
    var c := s[i];
    if c != '<' { return [c], i + 1, InText; }
    var remaining := s[i + 1..];
    assert remaining == s[start..][1..];
    if |remaining| == 0 { return [c], i + 1, InText; }
    var next := remaining[0];
    if !IsLetter(next) && next != '/' && next != '!' { return [c], i + 1, InText; }
    if |remaining| >= 3 && remaining[..3] == "!--" { return "", i + 4, InComment; }
    if |remaining| >= 8 && remaining[..8] == "![CDATA[" {
      emit, i := StepCData(s, i);
      return;
    }
    if next == '!' { return "", i + 2, InDoctype; }
    if next == '/' {
      emit, i := StepClose(s, i);
    } else {
      emit, i, st := StepOpen(s, i);
    }
  }

  /** The `stateTag` and `stateDoctype` cases. */
  method StepQuoteAware(s: string, start: nat, st0: State) returns (i: nat, st: State)
    requires start < |s|
    ensures start < i <= |s| && Move("", i - start, st) == QuoteAwareMove(s[start..], st0)
  {
    hide Through;
    var c := s[start];
    i, st := start + 1, st0;
    if c == '>' {
      st := InText;
    } else if c == '\'' || c == '"' {
      assert s[i..] == s[start..][1..];
      i := SkipThrough(s, i, c);
    }
  }

  /** The `stateScript` and `stateStyle` cases. */
  method StepRaw(s: string, start: nat, closing: string, st0: State) returns (i: nat, st: State)
    requires start < |s| && closing != ""
    ensures start < i <= |s| && Move("", i - start, st) == RawMove(s[start..], closing, st0)
  {
    hide Through, AsciiLower;
    i, st := start + 1, st0;
    if s[start] == '<' && start + |closing| < |s| {
      assert s[start..start + |closing|] == s[start..][..|closing|];
      if AsciiLower(s[start..start + |closing|]) == closing {
        assert s[start + |closing|..] == s[start..][|closing|..];
        i := SkipThrough(s, start + |closing|, '>');
        st := InText;
      }
    }
  }

  method Step(s: string, start: nat, st0: State) returns (emit: string, i: nat, st: State)
    requires start < |s|
    ensures start < i <= |s| && Move(emit, i - start, st) == NextMove(s[start..], st0)
  {
    hide TextMove, QuoteAwareMove, RawMove;
    emit := "";
    match st0
    case InText => emit, i, st := StepText(s, start);
    case InTag | InDoctype => i, st := StepQuoteAware(s, start, st0);
    case InScript => i, st := StepRaw(s, start, "</script", st0);
    case InStyle => i, st := StepRaw(s, start, "</style", st0);
    case InComment =>
      if s[start] == '-' && start + 2 < |s| && s[start + 1] == '-' && s[start + 2] == '>' {
        i, st := start + 3, InText;
      } else {
        i, st := start + 1, InComment;
      }
  }

  /** The scanning loop of `StripHTML`: all indices in bounds, never more output than input read. */
  method StripTags(s: string) returns (out: string)
    ensures out == Scan(s, InText) && |out| <= |s|
  {
    hide NextMove;
    out := "";
    var st, i := InText, 0;
    while i < |s|
      invariant 0 <= i <= |s| && |out| <= i
      invariant out + Scan(s[i..], st) == Scan(s, InText)
    {
      var emit, j, next := Step(s, i, st);
      assert s[i..][j - i..] == s[j..];
      assert out + (emit + Scan(s[j..], next)) == (out + emit) + Scan(s[j..], next);
      out, i, st := out + emit, j, next;
    }
  }

  // ---------------------------------------------------------------------------
  // What holds for every input, malformed or not
  // ---------------------------------------------------------------------------

  /** The text without its newlines (block tags add newlines of their own). */
  function Visible(s: string): string {
    if s == "" then "" else (if s[0] == '\n' then "" else [s[0]]) + Visible(s[1..])
  }

  lemma {:induction false} VisibleConcat(a: string, b: string)
    ensures Visible(a + b) == Visible(a) + Visible(b)
  {
    if a == "" {
      assert a + b == b;
    } else {
      assert (a + b)[1..] == a[1..] + b;
      VisibleConcat(a[1..], b);
    }
  }

  lemma {:induction false} VisibleSubsequence(s: string)
    ensures Subsequence(Visible(s), s)
  {
    if s != "" {
      VisibleSubsequence(s[1..]);
      assert Visible(s) == if s[0] == '\n' then Visible(s[1..]) else [s[0]] + Visible(s[1..]);
    }
  }

  lemma {:induction false} SliceSubsequence(r: string, lo: nat, hi: nat, n: nat)
    requires lo <= hi <= n <= |r|
    ensures Subsequence(Visible(r[lo..hi]), r[..n])
  {
    VisibleSubsequence(r[lo..hi]);
    assert Subsequence("", r[..lo]) && Subsequence("", r[hi..n]);
    SubsequenceConcat("", r[..lo], Visible(r[lo..hi]), r[lo..hi]);
    SubsequenceConcat("" + Visible(r[lo..hi]), r[..lo] + r[lo..hi], "", r[hi..n]);
    assert "" + Visible(r[lo..hi]) + "" == Visible(r[lo..hi]);
    assert r[..lo] + r[lo..hi] + r[hi..n] == r[..n];
  }

  lemma {:induction false} MoveSubsequence(r: string, st: State)
    requires r != ""
    ensures Subsequence(Visible(NextMove(r, st).emit), r[..NextMove(r, st).skip])
  {
    hide Through, TagName, IsBlockTag;
    var m := NextMove(r, st);
    if m.emit != "" && m.emit != "\n" {
      if m.skip == 1 {
        assert m.emit == r[0..1];
        SliceSubsequence(r, 0, 1, 1);
      } else {
        CDataEnd(r);
        SliceSubsequence(r, 9, 3 + IndexOf(r[3..], "]]>"), m.skip);
      }
    }
  }

  /**
    Whatever the input, the machine never emits more than it reads, and apart from
    newlines every emitted character is an input character, in input order.
   */
  lemma {:induction false} ScanSubsequence(r: string, st: State)
    ensures |Scan(r, st)| <= |r|
    ensures Subsequence(Visible(Scan(r, st)), r)
    decreases |r|
  {
    hide NextMove;
    if r != "" {
      var m := NextMove(r, st);
      var rest := r[m.skip..];
      MoveSubsequence(r, st);
      ScanSubsequence(rest, m.next);
      VisibleConcat(m.emit, Scan(rest, m.next));
      SubsequenceConcat(Visible(m.emit), r[..m.skip], Visible(Scan(rest, m.next)), rest);
      assert r == r[..m.skip] + rest;
    }
  }

  /** Text without '<' passes through unchanged. */
  lemma {:induction false} ScanPlain(r: string)
    requires '<' !in r
    ensures Scan(r, InText) == r
  {
    if r != "" { ScanPlain(r[1..]); }
  }
}
