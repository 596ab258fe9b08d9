/**
  The white-space clean-up at the end of `StripHTML`: four passes in the program,
  one sentence in the specification.
 */
module CleanUp {
  import opened Text
  import opened Utf8
  import opened ByteText

  // ---------------------------------------------------------------------------
  // Lines
  // ---------------------------------------------------------------------------

  /** The lines of a text; a text without newline is one line. */
  function Lines(s: string): (ls: seq<string>)
    ensures |ls| >= 1
    ensures forall l :: l in ls ==> '\n' !in l
  {
    if s == "" then [""]
    else
      var rest := Lines(s[1..]);
      if s[0] == '\n' then [""] + rest else [[s[0]] + rest[0]] + rest[1..]
  }

  function Join(ls: seq<string>): string {
    if ls == [] then "" else if |ls| == 1 then ls[0] else ls[0] + ("\n" + Join(ls[1..]))
  }

  function TrimAll(ls: seq<string>): (r: seq<string>)
    ensures |r| == |ls| && forall i :: 0 <= i < |ls| ==> r[i] == Trim(ls[i])
  {
    if ls == [] then [] else [Trim(ls[0])] + TrimAll(ls[1..])
  }

  /** The trimmed lines that have something in them. */
  function Kept(ls: seq<string>): seq<string> {
    if ls == [] then [] else (if Trim(ls[0]) == "" then [] else [Trim(ls[0])]) + Kept(ls[1..])
  }

  /** What the clean-up amounts to: the non-empty trimmed lines, joined by newlines. */
  function CleanText(s: string): string {
    Join(Kept(Lines(s)))
  }

  predicate CleanLines(ls: seq<string>) {
    forall l :: l in ls ==> '\n' !in l && Trimmed(l)
  }

  lemma {:induction false} LinesOfCut(head: string, tail: string)
    requires '\n' !in head
    ensures Lines(head) == [head]
    ensures Lines(head + ("\n" + tail)) == [head] + Lines(tail)
  {
    var s := head + ("\n" + tail);
    if head == "" {
      assert s[1..] == tail;
    } else {
      assert head[0] in head && forall c :: c in head[1..] ==> c in head;
      LinesOfCut(head[1..], tail);
      assert s[1..] == head[1..] + ("\n" + tail);
      assert [head[0]] + head[1..] == head;
    }
  }

  lemma {:induction false} LinesJoin(ls: seq<string>)
    requires ls != [] && forall l :: l in ls ==> '\n' !in l
    ensures Lines(Join(ls)) == ls
  {
    hide Lines, Join;
    var l, rest := ls[0], ls[1..];
    assert ls == [l] + rest;
    assert '\n' !in l;
    if rest == [] {
      assert ls == [l];
      LinesOfCut(l, "");
      JoinOne(l);
    } else {
      LinesJoin(rest);
      LinesOfCut(l, Join(rest));
      JoinCons(l, rest);
    }
  }

  lemma {:induction false} JoinLines(s: string)
    ensures Join(Lines(s)) == s
  {
    if s != "" {
      JoinLines(s[1..]);
      var rest := Lines(s[1..]);
      if s[0] != '\n' {
        assert Join(Lines(s)) == [s[0]] + Join(rest);
      }
    }
  }

  lemma {:induction false} NoNewlineBefore(s: string, n: nat)
    requires n <= |s| && forall k :: 0 <= k < n ==> !At(s, k, "\n")
    ensures '\n' !in s[..n]
  {
    AtChar(s, '\n');
  }

  /** Cutting at the first newline takes off the first line. */
  lemma {:induction false} LinesSplit(s: string, idx: int)
    requires idx == IndexOf(s, "\n")
    ensures idx < 0 ==> Lines(s) == [s]
    ensures idx >= 0 ==> Lines(s) == [s[..idx]] + Lines(s[idx + 1..])
  {
    if idx < 0 {
      NoNewlineBefore(s, |s|);
      assert s[..|s|] == s;
      LinesOfCut(s, "");
    } else {
      NoNewlineBefore(s, idx);
      LinesOfCut(s[..idx], s[idx + 1..]);
      assert s[idx..idx + 1] == "\n";
      assert s == s[..idx] + ("\n" + s[idx + 1..]);
    }
  }

  lemma {:induction false} JoinOne(l: string)
    ensures Join([l]) == l
  {
  }

  lemma {:induction false} JoinCons(l: string, ls: seq<string>)
    requires ls != []
    ensures Join([l] + ls) == l + ("\n" + Join(ls))
  {
    assert ([l] + ls)[1..] == ls;
  }

  // ---------------------------------------------------------------------------
  // The passes
  // ---------------------------------------------------------------------------

  /** Newline runs reduced to one newline; `prev` says that a newline was just written. */
  function CollapseFrom(s: string, prev: bool): string {
    if s == "" then ""
    else if s[0] != '\n' then [s[0]] + CollapseFrom(s[1..], false)
    else if prev then CollapseFrom(s[1..], true)
    else "\n" + CollapseFrom(s[1..], true)
  }

  /** `collapseNewlines`: rune by rune, so that an invalid byte comes out as U+FFFD. */
  method CollapseNewlines(s: seq<Byte>) returns (out: seq<Byte>)
    ensures out == EncodeText(CollapseFrom(DecodeText(s), false))
  {
    hide DecodeRune, EncodeRune;
    out := [];
    var prev := false;
    var i := 0;
    while i < |s|
      invariant 0 <= i <= |s|
      invariant out + EncodeText(CollapseFrom(DecodeText(s[i..]), prev))
             == EncodeText(CollapseFrom(DecodeText(s), false))
    {
      var d := DecodeRune(s[i..]);
      var r, next := d.rune as char, i + d.size;
      ghost var rest := DecodeText(s[next..]);
      assert s[i..][d.size..] == s[next..];
      assert DecodeText(s[i..]) == [r] + rest && ([r] + rest)[1..] == rest;
      if r == '\n' {
        ghost var tail := CollapseFrom(rest, true);
        if !prev {
          assert ("\n" + tail)[1..] == tail;
          out := out + EncodeRune(r as int);
        }
        prev := true;
      } else {
        ghost var tail := CollapseFrom(rest, false);
        assert ([r] + tail)[1..] == tail;
        out := out + EncodeRune(r as int);
        prev := false;
      }
      i := next;
    }
  }

  /** `trimLines`: every line trimmed, the newlines kept. */
  function LinesTrimmed(s: string): string {
    Join(TrimAll(Lines(s)))
  }

  lemma {:induction false} LinesTrimmedStep(s: string, idx: int)
    requires idx == IndexOf(s, "\n")
    ensures idx < 0 ==> LinesTrimmed(s) == Trim(s)
    ensures idx >= 0 ==> LinesTrimmed(s) == Trim(s[..idx]) + ("\n" + LinesTrimmed(s[idx + 1..]))
  {
    hide Lines, Trim;
    LinesSplit(s, idx);
    if idx < 0 {
      assert TrimAll([s]) == [Trim(s)];
    } else {
      JoinCons(Trim(s[..idx]), TrimAll(Lines(s[idx + 1..])));
      assert TrimAll(Lines(s)) == [Trim(s[..idx])] + TrimAll(Lines(s[idx + 1..]));
    }
  }

  /** The position of the first newline byte, or -1. */
  function NewlineAt(s: seq<Byte>): (i: int)
    ensures -1 <= i < |s|
  {
    NewlineInside(AsChars(s));
    IndexOf(AsChars(s), "\n")
  }

  lemma {:induction false} NewlineInside(s: string)
    ensures IndexOf(s, "\n") < |s|
  {
    hide IndexOf;
  }

  /** Arbitrary bytes, cut at the newlines, with every piece trimmed. */
  function LinesTrimmedBytes(s: seq<Byte>): seq<Byte> {
    var i := NewlineAt(s);
    if i < 0 then TrimBytes(s) else TrimBytes(s[..i]) + ([0x0A] + LinesTrimmedBytes(s[i + 1..]))
  }

  method TrimLines(s: seq<Byte>) returns (out: seq<Byte>)
    ensures out == LinesTrimmedBytes(s)
  {
    hide TrimBytes, NewlineAt;
    out := [];
    var rest := s;
    var idx := NewlineAt(rest);
    while idx >= 0
      invariant idx == NewlineAt(rest)
      invariant out + LinesTrimmedBytes(rest) == LinesTrimmedBytes(s)
      decreases |rest|
    {
      var line := TrimBytes(rest[..idx]);
      ghost var tail := LinesTrimmedBytes(rest[idx + 1..]);
      assert out + (line + ([0x0A] + tail)) == (if line != [] then out + line else out) + [0x0A] + tail;
      if line != [] { out := out + line; }
      out := out + [0x0A];
      rest := rest[idx + 1..];
      idx := NewlineAt(rest);
    }
    out := out + TrimBytes(rest);
  }

  /** On the bytes of a text, the text with every line trimmed. */
  lemma {:induction false} LinesTrimmedText(t: string)
    ensures LinesTrimmedBytes(EncodeText(t)) == EncodeText(LinesTrimmed(t))
    decreases |t|
  {
    hide TrimBytes, NewlineAt, LinesTrimmed, EncodeText, IndexOf;
    var i := IndexOf(t, "\n");
    LinesTrimmedStep(t, i);
    NewlineInText(t);
    if i < 0 {
      TrimEncoded(t);
    } else {
      LinesTrimmedText(t[i + 1..]);
      TrimEncoded(t[..i]);
      EncodeTextConcat(Trim(t[..i]), "\n" + LinesTrimmed(t[i + 1..]));
      EncodeTextConcat("\n", LinesTrimmed(t[i + 1..]));
      NewlineByte();
    }
  }

  lemma NewlineByte()
    ensures EncodeText("\n") == [0x0A]
  {
    assert "\n"[1..] == "" && EncodeText("") == [];
  }

  lemma {:induction false} NewlineInText(t: string)
    ensures var i, j := IndexOf(t, "\n"), NewlineAt(EncodeText(t));
            if i < 0 then j < 0
            else
              && i < |t| && 0 <= j < |EncodeText(t)|
              && EncodeText(t)[..j] == EncodeText(t[..i])
              && EncodeText(t)[j + 1..] == EncodeText(t[i + 1..])
  {
    hide EncodeText, TextBytes, IndexOf, At;
    TextBytesAreEncoded(t);
    NewlineInside(t);
    IndexCommutes(t, "\n");
    var i := IndexOf(t, "\n");
    if i >= 0 {
      TextBytesAreEncoded(t[..i]);
      var a, b := t[..i], t[i + 1..];
      NewlineThere(t);
      assert t == a + ("\n" + b);
      EncodeTextConcat(a, "\n" + b);
      EncodeTextConcat("\n", b);
      NewlineByte();
    }
  }

  lemma {:induction false} NewlineThere(t: string)
    requires IndexOf(t, "\n") >= 0
    ensures IndexOf(t, "\n") < |t| && t[IndexOf(t, "\n")] == '\n'
  {
    hide IndexOf;
    AtChar(t, '\n');
  }

  // ---------------------------------------------------------------------------
  // The passes together
  // ---------------------------------------------------------------------------

  /** Collapsing only removes empty lines. */
  lemma {:induction false} CollapseKeepsLines(s: string, prev: bool)
    ensures Kept(Lines(CollapseFrom(s, prev))) == Kept(Lines(s))
    ensures !prev ==> Lines(CollapseFrom(s, prev))[0] == Lines(s)[0]
    ensures !prev ==> Kept(Lines(CollapseFrom(s, prev))[1..]) == Kept(Lines(s)[1..])
  {
    if s != "" {
      var t := s[1..];
      CollapseKeepsLines(t, s[0] == '\n');
      var c := CollapseFrom(t, s[0] == '\n');
      if s[0] != '\n' {
        assert CollapseFrom(s, prev)[1..] == c;
      } else if !prev {
        assert CollapseFrom(s, prev) == "\n" + c && ("\n" + c)[1..] == c;
        KeptBlank(Lines(c));
        KeptBlank(Lines(t));
      } else {
        KeptBlank(Lines(t));
      }
    }
  }

  lemma {:induction false} KeptBlank(ls: seq<string>)
    ensures Kept([""] + ls) == Kept(ls)
    ensures ([""] + ls)[1..] == ls
  {
    assert ([""] + ls)[1..] == ls;
  }

  lemma {:induction false} KeptTrimAll(ls: seq<string>)
    ensures Kept(TrimAll(ls)) == Kept(ls)
  {
    if ls != [] {
      TrimIdempotent(ls[0]);
      KeptTrimAll(ls[1..]);
    }
  }

  lemma {:induction false} TrimHasNoNewline(l: string)
    requires '\n' !in l
    ensures '\n' !in Trim(l)
  {
    var w, w' := TrimSplit(l);
    assert forall c :: c in Trim(l) ==> c in l;
  }

  lemma {:induction false} TrimAllClean(ls: seq<string>)
    requires forall l :: l in ls ==> '\n' !in l
    ensures CleanLines(TrimAll(ls))
  {
    forall l | l in TrimAll(ls)
      ensures '\n' !in l && Trimmed(l)
    {
      var i :| 0 <= i < |ls| && TrimAll(ls)[i] == l;
      TrimHasNoNewline(ls[i]);
      TrimIdempotent(ls[i]);
    }
  }

  lemma {:induction false} KeptClean(ls: seq<string>)
    requires forall l :: l in ls ==> '\n' !in l
    ensures CleanLines(Kept(ls)) && "" !in Kept(ls)
  {
    if ls != [] {
      TrimHasNoNewline(ls[0]);
      TrimIdempotent(ls[0]);
      KeptClean(ls[1..]);
    }
  }

  /** Lines that are clean already are only freed of the empty ones. */
  lemma {:induction false} KeptOfClean(ls: seq<string>)
    requires CleanLines(ls) && "" !in ls
    ensures Kept(ls) == ls
  {
    if ls != [] {
      assert ls[0] in ls;
      TrimFixed(ls[0]);
      KeptOfClean(ls[1..]);
    }
  }

  lemma {:induction false} CollapseThrough(l: string, x: string, prev: bool)
    requires '\n' !in l && l != ""
    ensures CollapseFrom(l + x, prev) == l + CollapseFrom(x, false)
  {
    assert l[0] in l;
    assert (l + x)[1..] == l[1..] + x;
    if |l| == 1 {
      assert l[1..] + x == x;
    } else {
      CollapseThrough(l[1..], x, false);
      assert [l[0]] + (l[1..] + CollapseFrom(x, false)) == l + CollapseFrom(x, false);
    }
  }

  lemma {:induction false} CollapseCons(l: string, rest: seq<string>)
    requires rest != [] && '\n' !in l
    ensures CollapseFrom(l + ("\n" + Join(rest)), true)
         == (if l == "" then "" else l + "\n") + CollapseFrom(Join(rest), true)
  {
    hide Join;
    var x := "\n" + Join(rest);
    assert x[1..] == Join(rest);
    if l == "" {
      assert l + x == x;
    } else {
      CollapseThrough(l, x, true);
      assert l + ("\n" + CollapseFrom(Join(rest), true)) == (l + "\n") + CollapseFrom(Join(rest), true);
    }
  }

  lemma {:induction false} JoinWithSpace(l: string, k: seq<string>, w: string) returns (w': string)
    requires AllSpace(w)
    ensures AllSpace(w') && (l + "\n") + (Join(k) + w) == Join([l] + k) + w'
  {
    if k == [] {
      w' := "\n" + w;
    } else {
      w' := w;
      JoinCons(l, k);
    }
  }

  /** After trimming, the second collapse leaves the kept lines and at most white space behind them. */
  lemma {:induction false} CollapseCleanLines(ls: seq<string>) returns (w: string)
    requires ls != [] && CleanLines(ls)
    ensures AllSpace(w) && CollapseFrom(Join(ls), true) == Join(Kept(ls)) + w
  {
    hide CollapseFrom;
    var l, rest := ls[0], ls[1..];
    assert l in ls;
    TrimFixed(l);
    if rest == [] {
      CollapseLine(l);
      assert Kept(ls) == if l == "" then [] else [l];
      w := "";
    } else {
      w := CollapseCleanLines(rest);
      CollapseCons(l, rest);
      if l == "" {
        assert Kept(ls) == Kept(rest);
      } else {
        assert Kept(ls) == [l] + Kept(rest);
        w := JoinWithSpace(l, Kept(rest), w);
      }
    }
  }

  lemma {:induction false} CollapseLine(l: string)
    requires '\n' !in l
    ensures CollapseFrom(l, true) == l
  {
    if l != "" {
      CollapseThrough(l, "", true);
      assert l + "" == l;
    }
  }

  lemma {:induction false} CollapseFirst(s: string) returns (w: string)
    ensures AllSpace(w) && CollapseFrom(s, false) == w + CollapseFrom(s, true)
  {
    w := if s != "" && s[0] == '\n' then "\n" else "";
  }

  lemma {:induction false} JoinTrimmed(ls: seq<string>)
    requires CleanLines(ls) && "" !in ls
    ensures Trimmed(Join(ls)) && (ls != [] ==> Join(ls) != "" && Join(ls)[0] == ls[0][0])
  {
    if ls != [] {
      assert ls[0] in ls;
      if |ls| > 1 {
        assert ls[1] in ls;
        JoinTrimmed(ls[1..]);
      }
    }
  }

  /** The four passes amount to joining the non-empty trimmed lines. */
  lemma {:induction false} PassesAreCleanText(s: string)
    ensures Trim(CollapseFrom(LinesTrimmed(CollapseFrom(s, false)), false)) == CleanText(s)
  {
    hide Lines, Join, CollapseFrom, Kept, Trim, TrimAll;
    var c := CollapseFrom(s, false);
    var ls := TrimAll(Lines(c));
    CollapseKeepsLines(s, false);
    KeptTrimAll(Lines(c));
    TrimAllClean(Lines(c));
    KeptClean(Lines(c));
    JoinTrimmed(Kept(ls));
    var w' := CollapseCleanLines(ls);
    var w := CollapseFirst(Join(ls));
    TrimPad(w, Join(Kept(ls)), w');
    assert w + Join(Kept(ls)) + w' == w + (Join(Kept(ls)) + w');
  }

  /** The clean-up as the program runs it. */
  method CleanUpPasses(s: seq<Byte>) returns (result: seq<Byte>)
    ensures result == EncodeText(CleanText(DecodeText(s)))
  {
    hide EncodeText, DecodeText, CollapseFrom, LinesTrimmed, LinesTrimmedBytes, CleanText, Trim, TrimBytes;
    ghost var text := DecodeText(s);
    result := CollapseNewlines(s);
    result := TrimLines(result);
    LinesTrimmedText(CollapseFrom(text, false));
    ghost var lines := LinesTrimmed(CollapseFrom(text, false));
    DecodeEncodedText(lines);
    result := CollapseNewlines(result);
    result := TrimBytes(result);
    TrimEncoded(CollapseFrom(lines, false));
    PassesAreCleanText(text);
  }

  /** Cleaning text that is clean changes nothing. */
  lemma {:induction false} CleanTextIdempotent(s: string)
    ensures CleanText(CleanText(s)) == CleanText(s)
  {
    var k := Kept(Lines(s));
    KeptClean(Lines(s));
    if k != [] {
      LinesJoin(k);
      KeptOfClean(k);
    }
  }
}
