/**
  What `StripHTML` guarantees for arbitrary bytes, valid UTF-8 or not.

  The machine only drops bytes and writes newlines. The clean-up behind it reads runes and
  writes U+FFFD for every invalid byte, so it keeps to the bytes it was given exactly when
  they are valid UTF-8.
 */
module HtmlBytes {
  import opened Text
  import opened Utf8
  import opened ByteText
  import opened HtmlScanner
  import opened CleanUp
  import opened Html

  lemma {:induction false} VisibleMembers(s: string)
    ensures forall c :: c in s ==> c == '\n' || c in Visible(s)
  {
    if s != "" {
      VisibleMembers(s[1..]);
      assert forall c :: c in s ==> c == s[0] || c in s[1..];
      assert Visible(s) == (if s[0] == '\n' then "" else [s[0]]) + Visible(s[1..]);
    }
  }

  /** The machine turns bytes into bytes. */
  lemma {:induction false} ScanAreBytes(s: string)
    requires AreBytes(s)
    ensures AreBytes(Scan(s, InText))
  {
    hide Scan, Visible, Subsequence;
    ScanSubsequence(s, InText);
    VisibleMembers(Scan(s, InText));
    SubsequenceMembers(Visible(Scan(s, InText)), s);
  }

  lemma {:induction false} ScannedBound(b: seq<Byte>)
    ensures AsChars(Scanned(b)) == Scan(AsChars(b), InText)
    ensures |Scanned(b)| <= |b|
    ensures Subsequence(Visible(AsChars(Scanned(b))), AsChars(b))
  {
    hide Scan, Visible, Subsequence;
    BytesOfChars(b);
    ScanAreBytes(AsChars(b));
    CharsOfBytes(Scan(AsChars(b), InText));
    ScanSubsequence(AsChars(b), InText);
  }

  lemma {:induction false} TextBytesSubsequence(a: string, b: string)
    requires Subsequence(a, b)
    ensures Subsequence(TextBytes(a), TextBytes(b))
    decreases |b|
  {
    hide CharBytes;
    if a != "" {
      TextBytesHead(b);
      if a[0] == b[0] && Subsequence(a[1..], b[1..]) {
        TextBytesHead(a);
        TextBytesSubsequence(a[1..], b[1..]);
        SubsequenceRefl(CharBytes(a[0]));
        SubsequenceConcat(CharBytes(a[0]), CharBytes(b[0]), TextBytes(a[1..]), TextBytes(b[1..]));
      } else {
        TextBytesSubsequence(a, b[1..]);
        SubsequenceConcat("", CharBytes(b[0]), TextBytes(a), TextBytes(b[1..]));
        assert "" + TextBytes(a) == TextBytes(a);
      }
    }
  }

  // ---------------------------------------------------------------------------
  // Counting two of the bytes of U+FFFD
  // ---------------------------------------------------------------------------

  predicate IsMark(c: char) {
    c as int == 0xEF || c as int == 0xBF
  }

  function Marks(s: string): nat {
    if s == "" then 0 else (if IsMark(s[0]) then 1 else 0) + Marks(s[1..])
  }

  lemma {:induction false} MarksConcat(a: string, b: string)
    ensures Marks(a + b) == Marks(a) + Marks(b)
  {
    if a == "" {
      assert a + b == b;
    } else {
      assert (a + b)[1..] == a[1..] + b;
      MarksConcat(a[1..], b);
    }
  }

  lemma {:induction false} SubsequenceMarks(a: string, b: string)
    requires Subsequence(a, b)
    ensures Marks(a) <= Marks(b)
    decreases |b|
  {
    hide IsMark;
    if a != "" {
      if a[0] == b[0] && Subsequence(a[1..], b[1..]) {
        SubsequenceMarks(a[1..], b[1..]);
      } else {
        SubsequenceMarks(a, b[1..]);
      }
    }
  }

  function TextMarks(t: string): nat {
    Marks(TextBytes(t))
  }

  lemma {:induction false} TextMarksConcat(a: string, b: string)
    ensures TextMarks(a + b) == TextMarks(a) + TextMarks(b)
  {
    TextBytesConcat(a, b);
    MarksConcat(TextBytes(a), TextBytes(b));
  }

  lemma {:induction false} NoMarks(s: string)
    requires forall c :: c in s ==> !IsMark(c)
    ensures Marks(s) == 0
  {
    hide IsMark;
    if s != "" {
      assert s[0] in s && forall c :: c in s[1..] ==> c in s;
      NoMarks(s[1..]);
    }
  }

  /** White space is written without these bytes. */
  lemma {:induction false} SpaceBytes(c: char)
    requires IsSpace(c)
    ensures 0xEF !in EncodeRune(c as int) && 0xBF !in EncodeRune(c as int)
  {
  }

  lemma {:induction false} SpaceMarks(c: char)
    requires IsSpace(c)
    ensures TextMarks([c]) == 0
  {
    hide EncodeRune, IsSpace;
    SpaceBytes(c);
    TextBytesHead([c]);
    assert [c][1..] == "" && TextBytes("") == "" && CharBytes(c) + "" == CharBytes(c);
    NoMarks(CharBytes(c));
  }

  lemma {:induction false} SpacesMarks(w: string)
    requires AllSpace(w)
    ensures TextMarks(w) == 0
  {
    hide IsSpace, TextMarks;
    if w == "" {
      assert TextMarks("") == 0 by { NothingMarked(); }
    } else {
      assert w[0] in w && forall c :: c in w[1..] ==> c in w;
      SpaceMarks(w[0]);
      SpacesMarks(w[1..]);
      TextMarksConcat([w[0]], w[1..]);
      assert w == [w[0]] + w[1..];
    }
  }

  lemma NothingMarked()
    ensures TextMarks("") == 0
  {
  }

  lemma {:induction false} TrimMarks(l: string)
    ensures TextMarks(Trim(l)) == TextMarks(l)
  {
    hide TextMarks, Trim;
    var w, w' := TrimSplit(l);
    SpacesMarks(w);
    SpacesMarks(w');
    TextMarksConcat(w + Trim(l), w');
    TextMarksConcat(w, Trim(l));
  }

  function LineMarks(ls: seq<string>): nat {
    if ls == [] then 0 else TextMarks(ls[0]) + LineMarks(ls[1..])
  }

  lemma {:induction false} JoinMarks(ls: seq<string>)
    ensures TextMarks(Join(ls)) == LineMarks(ls)
  {
    hide TextMarks;
    NothingMarked();
    if |ls| == 1 {
      assert LineMarks(ls[1..]) == 0;
    } else if |ls| > 1 {
      JoinMarks(ls[1..]);
      TextMarksConcat(ls[0], "\n" + Join(ls[1..]));
      TextMarksConcat("\n", Join(ls[1..]));
      assert IsSpace('\n');
      SpaceMarks('\n');
    }
  }

  lemma {:induction false} KeptMarks(ls: seq<string>)
    ensures LineMarks(Kept(ls)) == LineMarks(ls)
  {
    hide TextMarks, Trim;
    if ls != [] {
      var l, k := Trim(ls[0]), Kept(ls[1..]);
      KeptMarks(ls[1..]);
      TrimMarks(ls[0]);
      NothingMarked();
      if l != "" { assert Kept(ls) == [l] + k && ([l] + k)[1..] == k; } else { assert Kept(ls) == k; }
    }
  }

  /** The clean-up only drops white space. */
  lemma {:induction false} CleanTextMarks(t: string)
    ensures TextMarks(CleanText(t)) == TextMarks(t)
  {
    JoinMarks(Kept(Lines(t)));
    KeptMarks(Lines(t));
    JoinMarks(Lines(t));
    JoinLines(t);
  }

  /** Reading the runes of invalid bytes and writing them again adds marks. */
  lemma {:induction false} DecodeMarks(x: seq<Byte>)
    ensures TextMarks(DecodeText(x)) >= Marks(AsChars(x)) + (if Valid(x) then 0 else 1)
    ensures |TextBytes(DecodeText(x))| <= 3 * |x|
  {
    hide DecodeRune, TextMarks, Marks, TextBytes;
    if x == [] {
      NothingDecoded();
    } else {
      var d := DecodeRune(x);
      var rest := x[d.size..];
      DecodeMarks(rest);
      UnitMarks(x);
      TextMarksConcat([d.rune as char], DecodeText(rest));
      TextBytesConcat([d.rune as char], DecodeText(rest));
      assert AsChars(x) == AsChars(x[..d.size]) + AsChars(rest);
      MarksConcat(AsChars(x[..d.size]), AsChars(rest));
    }
  }

  lemma NothingDecoded()
    ensures AsChars([]) == "" && DecodeText([]) == "" && TextBytes("") == "" && Marks("") == 0 && TextMarks("") == 0
  {
  }

  lemma {:induction false} UnitMarks(x: seq<Byte>)
    requires x != []
    ensures var d := DecodeRune(x);
            var unit, written := AsChars(x[..d.size]), TextBytes([d.rune as char]);
            && (d != INVALID ==> written == unit && TextMarks([d.rune as char]) == Marks(unit))
            && (d == INVALID ==> |written| == 3 && TextMarks([d.rune as char]) == 2 && Marks(unit) <= 1)
  {
    hide DecodeRune, EncodeRune;
    var d := DecodeRune(x);
    var c := d.rune as char;
    TextBytesHead([c]);
    assert [c][1..] == "" && TextBytes("") == "" && CharBytes(c) + "" == CharBytes(c);
    if d != INVALID {
      EncodeDecoded(x);
    } else {
      ReplacementBytes();
      MarksOne(x[0] as char);
      assert AsChars(x[..1]) == [x[0] as char];
      var written := CharBytes(c);
      assert written[1..][1..][1..] == "" && Marks(written[1..][1..]) == 0;
      assert Marks(written[1..]) == 1;
    }
  }

  lemma {:induction false} MarksOne(c: char)
    ensures Marks([c]) <= 1
  {
    assert [c][1..] == "" && Marks("") == 0;
  }

  lemma ReplacementBytes()
    ensures EncodeRune(RUNE_ERROR) == [0xEF, 0xBF, 0xBD]
  {
  }

  // ---------------------------------------------------------------------------
  // The clean-up on bytes
  // ---------------------------------------------------------------------------

  lemma {:induction false} StrippedChars(b: seq<Byte>)
    ensures AsChars(StrippedBytes(b)) == TextBytes(CleanText(DecodeText(Scanned(b))))
    ensures |StrippedBytes(b)| == |AsChars(StrippedBytes(b))|
  {
    TextBytesAreEncoded(CleanText(DecodeText(Scanned(b))));
  }

  lemma {:induction false} ValidChars(x: seq<Byte>)
    requires Valid(x)
    ensures TextBytes(DecodeText(x)) == AsChars(x)
  {
    EncodeDecodedText(x);
    TextBytesAreEncoded(DecodeText(x));
  }

  /**
    For every byte string: the result is valid UTF-8 of at most three times the length; and
    the clean-up only drops bytes of what the machine left exactly when that is valid.
   */
  lemma {:induction false} StrippedBytesExact(b: seq<Byte>)
    ensures Valid(StrippedBytes(b))
    ensures |StrippedBytes(b)| <= 3 * |b|
    ensures Subsequence(AsChars(StrippedBytes(b)), AsChars(Scanned(b))) <==> Valid(Scanned(b))
  {
    hide CleanText, TextBytes, Marks, Subsequence, Scanned, StrippedBytes, Valid;
    var x := Scanned(b);
    var t := DecodeText(x);
    ResultValid(b);
    StrippedChars(b);
    ScannedBound(b);
    DecodeMarks(x);
    CleanTextSubsequence(t);
    TextBytesSubsequence(CleanText(t), t);
    SubsequenceLength(TextBytes(CleanText(t)), TextBytes(t));
    CleanTextMarks(t);
    if Valid(x) { ValidChars(x); }
    if Subsequence(AsChars(StrippedBytes(b)), AsChars(x)) { SubsequenceMarks(AsChars(StrippedBytes(b)), AsChars(x)); }
  }

  lemma {:induction false} ResultValid(b: seq<Byte>)
    ensures Valid(StrippedBytes(b))
  {
    DecodeEncodedText(CleanText(DecodeText(Scanned(b))));
  }

  /**
    When the machine leaves valid UTF-8, as it does for every valid input, the result is no
    longer than the input and its bytes other than newlines are input bytes in input order.
   */
  lemma {:induction false} StrippedBytesSubsequence(b: seq<Byte>)
    requires Valid(Scanned(b))
    ensures |StrippedBytes(b)| <= |b|
    ensures Subsequence(Visible(AsChars(StrippedBytes(b))), AsChars(b))
  {
    hide Subsequence, Scanned, StrippedBytes, Valid, Visible;
    var r, x := AsChars(StrippedBytes(b)), AsChars(Scanned(b));
    StrippedBytesExact(b);
    ScannedBound(b);
    SubsequenceLength(r, x);
    VisibleMonotone(r, x);
    SubsequenceTrans(Visible(r), Visible(x), AsChars(b));
  }

  lemma {:induction false} ValidStaysValid(b: seq<Byte>)
    requires Valid(b)
    ensures Valid(Scanned(b))
  {
    hide Scanned, Valid;
    EncodeDecodedText(b);
    StrippedText(DecodeText(b));
    DecodeEncodedText(Scan(DecodeText(b), InText));
  }

  /** An input that grows: a single invalid byte becomes the three bytes of U+FFFD. */
  lemma InvalidByteGrows()
    ensures Scanned([0xFF]) == [0xFF]
    ensures StrippedBytes([0xFF]) == [0xEF, 0xBF, 0xBD]
  {
    hide EncodeRune;
    var b: seq<Byte> := [0xFF];
    assert AsChars(b) == ['\U{FF}'];
    ScanPlain(AsChars(b));
    BytesOfChars(b);
    var u: string := ['\U{FFFD}'];
    assert DecodeText(b) == u by { assert b[1..] == []; assert DecodeText([]) == ""; }
    LinesOfCut(u, "");
    TrimFixed(u);
    assert Kept([u]) == [u] by { assert [u][1..] == []; }
    assert CleanText(u) == u;
    ReplacementBytes();
    assert u[1..] == "" && EncodeText("") == [];
  }
}
