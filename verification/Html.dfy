/**
  `StripHTML` as a whole: the tag-stripping machine followed by the clean-up.
 */
module Html {
  import opened Text
  import opened HtmlScanner
  import opened HtmlTokens
  import opened CleanUp
  import opened Utf8
  import opened ByteText
  import opened ScanBytes

  function Stripped(s: string): string {
    CleanText(Scan(s, InText))
  }

  /** What the machine leaves of arbitrary bytes. */
  function Scanned(s: seq<Byte>): seq<Byte> {
    AsBytes(Scan(AsChars(s), InText))
  }

  /** The clean-up reads what is left rune by rune, invalid bytes as U+FFFD. */
  function StrippedBytes(s: seq<Byte>): seq<Byte> {
    EncodeText(CleanText(DecodeText(Scanned(s))))
  }

  method StripHtml(s: seq<Byte>) returns (result: seq<Byte>)
    ensures result == StrippedBytes(s)
  {
    hide Scan, CleanText;
    if s == [] {
      StrippedNothing();
      return [];
    }
    var scanned := StripTags(AsChars(s));
    result := CleanUpPasses(AsBytes(scanned));
  }

  lemma StrippedNothing()
    ensures StrippedBytes([]) == []
  {
    assert AsChars([]) == "" && Scan("", InText) == "" && CleanText("") == "";
  }

  /** On the bytes of a text, the bytes of the stripped text. */
  lemma {:induction false} StrippedText(t: string)
    ensures Scanned(EncodeText(t)) == EncodeText(Scan(t, InText))
    ensures StrippedBytes(EncodeText(t)) == EncodeText(Stripped(t))
  {
    hide Scan, CleanText, EncodeText, DecodeText, TextBytes;
    var x := Scan(t, InText);
    TextBytesAreEncoded(t);
    ScanCommutes(t, InText);
    TextBytesAreEncoded(x);
    BytesOfChars(EncodeText(x));
    DecodeEncodedText(x);
  }

  /** On a well-formed document only its text is left, cleaned up. */
  lemma {:induction false} StrippedDocument(ts: seq<Token>)
    requires forall t :: t in ts ==> GoodToken(t)
    ensures Stripped(Print(ts)) == CleanText(DocumentText(ts))
  {
    DocumentScan(ts);
  }

  /** Text without '<' is only cleaned up. */
  lemma {:induction false} StrippedPlain(s: string)
    requires '<' !in s
    ensures Stripped(s) == CleanText(s)
  {
    ScanPlain(s);
  }

  lemma {:induction false} JoinKeptSubsequence(ls: seq<string>)
    ensures Subsequence(Join(Kept(ls)), Join(ls))
  {
    if ls != [] {
      var l, rest := ls[0], ls[1..];
      TrimSubsequence(l);
      JoinKeptSubsequence(rest);
      if rest == [] {
        assert Kept(ls) == if Trim(l) == "" then [] else [Trim(l)];
      } else {
        var k := Kept(rest);
        assert Join(ls) == l + ("\n" + Join(rest));
        SubsequenceConcat("", "\n", Join(k), Join(rest));
        SubsequenceConcat("\n", "\n", Join(k), Join(rest));
        assert "" + Join(k) == Join(k);
        if Trim(l) == "" {
          assert Kept(ls) == k;
          SubsequenceConcat("", l, Join(k), "\n" + Join(rest));
        } else if k == [] {
          assert Kept(ls) == [Trim(l)];
          SubsequenceConcat(Trim(l), l, "", "\n" + Join(rest));
          assert Trim(l) + "" == Trim(l);
        } else {
          JoinCons(Trim(l), k);
          SubsequenceConcat(Trim(l), l, "\n" + Join(k), "\n" + Join(rest));
        }
      }
    }
  }

  lemma {:induction false} TrimSubsequence(l: string)
    ensures Subsequence(Trim(l), l)
  {
    var w, w' := TrimSplit(l);
    SubsequenceRefl(Trim(l));
    SubsequenceConcat("", w, Trim(l), Trim(l));
    SubsequenceConcat("" + Trim(l), w + Trim(l), "", w');
    assert "" + Trim(l) + "" == Trim(l);
  }

  lemma {:induction false} CleanTextSubsequence(s: string)
    ensures Subsequence(CleanText(s), s)
  {
    JoinKeptSubsequence(Lines(s));
    JoinLines(s);
  }

  lemma {:induction false} VisibleMonotone(a: string, b: string)
    requires Subsequence(a, b)
    ensures Subsequence(Visible(a), Visible(b))
    decreases |b|
  {
    if a != "" {
      var tail := Visible(b[1..]);
      if a[0] == b[0] && Subsequence(a[1..], b[1..]) {
        VisibleMonotone(a[1..], b[1..]);
        var c := if b[0] == '\n' then "" else [b[0]];
        SubsequenceRefl(c);
        SubsequenceConcat(c, c, Visible(a[1..]), tail);
      } else {
        VisibleMonotone(a, b[1..]);
        var c := if b[0] == '\n' then "" else [b[0]];
        SubsequenceConcat("", c, Visible(a), tail);
        assert "" + Visible(a) == Visible(a);
      }
    }
  }

  /**
    Whatever the text, malformed markup included: the result is never longer than the
    text, and its characters other than newlines are characters of it in their order.
    (`HtmlBytes` says what becomes of bytes that are no text.)
   */
  lemma {:induction false} StrippedSubsequence(s: string)
    ensures |Stripped(s)| <= |s|
    ensures Subsequence(Visible(Stripped(s)), s)
  {
    hide Scan, Visible, CleanText, Subsequence;
    var out := Scan(s, InText);
    ScanSubsequence(s, InText);
    CleanTextSubsequence(out);
    SubsequenceLength(Stripped(s), out);
    VisibleMonotone(Stripped(s), out);
    SubsequenceTrans(Visible(Stripped(s)), Visible(out), s);
  }
}
