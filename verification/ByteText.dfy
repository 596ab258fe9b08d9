/**
  Byte strings seen as text: every byte written as the character of its number, so that
  code which looks at single bytes is code on characters below 256.

  `TextBytes` is the UTF-8 form of a text in that notation. Its lemmas say that looking
  for ASCII marks in the bytes and in the text gives the same.
 */
module ByteText {
  import opened Text
  import opened Utf8

  function AsChars(b: seq<Byte>): (s: string)
    ensures |s| == |b| && forall i :: 0 <= i < |s| ==> s[i] == b[i] as char
  {
    seq(|b|, i requires 0 <= i < |b| => b[i] as char)
  }

  predicate AreBytes(s: string) {
    forall c :: c in s ==> c as int < 256
  }

  /** The bytes behind such characters. */
  function AsBytes(s: string): (b: seq<Byte>)
    ensures |b| == |s| && forall i :: 0 <= i < |s| && s[i] as int < 256 ==> b[i] == s[i] as int
  {
    seq(|s|, i requires 0 <= i < |s| => ByteOf(s[i]))
  }

  function ByteOf(c: char): Byte {
    c as int % 256
  }

  lemma {:induction false} CharsOfBytes(s: string)
    requires AreBytes(s)
    ensures AsChars(AsBytes(s)) == s
  {
    assert forall i :: 0 <= i < |s| ==> s[i] in s;
  }

  lemma {:induction false} BytesOfChars(b: seq<Byte>)
    ensures AreBytes(AsChars(b)) && AsBytes(AsChars(b)) == b
  {
  }

  predicate IsAscii(c: char) {
    c as int < 0x80
  }

  predicate AllAscii(s: string) {
    forall c :: c in s ==> IsAscii(c)
  }

  /** The bytes of one character: itself, or several that are no ASCII. */
  function CharBytes(c: char): (s: string)
    ensures s != ""
    ensures IsAscii(c) ==> s == [c]
    ensures !IsAscii(c) ==> forall x :: x in s ==> !IsAscii(x)
    ensures AreBytes(s)
  {
    AsChars(EncodeRune(c as int))
  }

  function TextBytes(t: string): string {
    if t == "" then "" else CharBytes(t[0]) + TextBytes(t[1..])
  }

  lemma {:induction false} TextBytesAreEncoded(t: string)
    ensures AsChars(EncodeText(t)) == TextBytes(t)
  {
    hide EncodeRune;
    if t != "" { TextBytesAreEncoded(t[1..]); }
  }

  lemma {:induction false} TextBytesConcat(a: string, b: string)
    ensures TextBytes(a + b) == TextBytes(a) + TextBytes(b)
  {
    hide CharBytes;
    if a == "" {
      assert a + b == b;
    } else {
      assert (a + b)[1..] == a[1..] + b;
      TextBytesConcat(a[1..], b);
    }
  }

  lemma {:induction false} TextBytesAscii(t: string)
    requires AllAscii(t)
    ensures TextBytes(t) == t
  {
    hide CharBytes, IsAscii;
    if t != "" {
      assert t[0] in t && forall c :: c in t[1..] ==> c in t;
      TextBytesAscii(t[1..]);
    }
  }

  lemma {:induction false} TextBytesLength(t: string)
    ensures |t| <= |TextBytes(t)|
    ensures TextBytes(t) == "" <==> t == ""
  {
    hide CharBytes;
    if t != "" { TextBytesLength(t[1..]); }
  }

  /** Cutting a text and its bytes behind an ASCII start. */
  lemma {:induction false} TextBytesCut(t: string, k: nat)
    requires k <= |t| && AllAscii(t[..k])
    ensures TextBytes(t) == t[..k] + TextBytes(t[k..])
    ensures k <= |TextBytes(t)| && TextBytes(t)[..k] == t[..k] && TextBytes(t)[k..] == TextBytes(t[k..])
  {
    assert t == t[..k] + t[k..];
    TextBytesConcat(t[..k], t[k..]);
    TextBytesAscii(t[..k]);
  }

  /** ... and anywhere. */
  lemma {:induction false} TextBytesSplit(t: string, n: nat)
    requires n <= |t|
    ensures TextBytes(t) == TextBytes(t[..n]) + TextBytes(t[n..])
    ensures TextBytes(t)[|TextBytes(t[..n])|..] == TextBytes(t[n..])
  {
    assert t == t[..n] + t[n..];
    TextBytesConcat(t[..n], t[n..]);
  }

  /** The first byte is the first character if that is ASCII, and otherwise no ASCII. */
  lemma {:induction false} FirstByte(t: string)
    requires t != ""
    ensures TextBytes(t) != ""
    ensures IsAscii(t[0]) ==> TextBytes(t)[0] == t[0] && TextBytes(t)[1..] == TextBytes(t[1..])
    ensures !IsAscii(t[0]) ==> !IsAscii(TextBytes(t)[0])
  {
    hide CharBytes, IsAscii;
    assert TextBytes(t)[0] == CharBytes(t[0])[0];
    assert CharBytes(t[0])[0] in CharBytes(t[0]);
  }

  lemma {:induction false} TextBytesHead(t: string)
    requires t != ""
    ensures TextBytes(t) == CharBytes(t[0]) + TextBytes(t[1..])
  {
  }

  // ---------------------------------------------------------------------------
  // Searching for ASCII
  // ---------------------------------------------------------------------------

  lemma {:induction false} PrefixCommutes(t: string, p: string)
    requires AllAscii(p)
    ensures p <= TextBytes(t) <==> p <= t
  {
    hide CharBytes, IsAscii;
    if p != "" && t != "" {
      assert p[0] in p && forall c :: c in p[1..] ==> c in p;
      var b := TextBytes(t);
      PrefixStep(b, p);
      PrefixStep(t, p);
      if IsAscii(t[0]) {
        assert b[0] == t[0] && b[1..] == TextBytes(t[1..]);
        PrefixCommutes(t[1..], p[1..]);
      } else {
        assert b[0] == CharBytes(t[0])[0] && b[0] in CharBytes(t[0]);
      }
    }
  }

  lemma {:induction false} PrefixStep(s: string, p: string)
    requires s != "" && p != ""
    ensures p <= s <==> s[0] == p[0] && p[1..] <= s[1..]
  {
    if s[0] == p[0] && p[1..] <= s[1..] {
      assert s[1..][..|p| - 1] == p[1..];
      assert s[..|p|] == [s[0]] + s[1..][..|p| - 1] && p == [p[0]] + p[1..];
    }
    if p <= s { assert s[1..][..|p| - 1] == p[1..]; }
  }

  /** `s` starts with `p` up to the case of ASCII letters. */
  predicate StartsLower(s: string, p: string) {
    |p| <= |s| && AsciiLower(s[..|p|]) == p
  }

  lemma {:induction false} LowerPrefixCommutes(t: string, p: string)
    requires AllAscii(p)
    ensures StartsLower(TextBytes(t), p) <==> StartsLower(t, p)
    ensures StartsLower(t, p) ==> AllAscii(t[..|p|])
  {
    hide CharBytes, AsciiLower, StartsLower;
    LowerPrefixEmpty(t, p);
    LowerPrefixEmpty(TextBytes(t), p);
    if p != "" && t != "" {
      assert p[0] in p && forall c :: c in p[1..] ==> c in p;
      var b := TextBytes(t);
      LowerPrefixStep(b, p);
      LowerPrefixStep(t, p);
      if IsAscii(t[0]) {
        assert b[0] == t[0] && b[1..] == TextBytes(t[1..]);
        LowerPrefixCommutes(t[1..], p[1..]);
        if StartsLower(t, p) { assert t[..|p|] == [t[0]] + t[1..][..|p[1..]|] by { LowerPrefixLength(t, p); } }
      } else {
        assert b[0] == CharBytes(t[0])[0] && b[0] in CharBytes(t[0]);
      }
    }
  }

  lemma {:induction false} LowerPrefixLength(s: string, p: string)
    requires StartsLower(s, p)
    ensures |p| <= |s|
  {
  }

  lemma {:induction false} LowerPrefixEmpty(s: string, p: string)
    ensures p == "" ==> StartsLower(s, p)
    ensures p != "" && s == "" ==> !StartsLower(s, p)
  {
  }

  lemma {:induction false} LowerPrefixStep(s: string, p: string)
    requires s != "" && p != ""
    ensures StartsLower(s, p) <==> AsciiLowerChar(s[0]) == p[0] && StartsLower(s[1..], p[1..])
  {
    if |p| <= |s| {
      var l, l' := AsciiLower(s[..|p|]), AsciiLower(s[1..][..|p| - 1]);
      assert l == [l[0]] + l[1..] && p == [p[0]] + p[1..];
      assert l[1..] == l';
    }
  }

  lemma {:induction false} IndexSkip(x: string, rest: string, p: string)
    requires p != "" && p[0] !in x
    ensures var i := IndexOf(rest, p); IndexOf(x + rest, p) == if i < 0 then -1 else |x| + i
  {
    hide At;
    if x == "" {
      assert x + rest == rest;
    } else {
      assert (x + rest)[0] == x[0] && x[0] in x && (x + rest)[1..] == x[1..] + rest;
      assert forall c :: c in x[1..] ==> c in x;
      assert !(p <= x + rest);
      IndexSkip(x[1..], rest, p);
    }
  }

  lemma {:induction false} IndexCommutes(t: string, p: string)
    requires p != "" && AllAscii(p)
    ensures var i, j := IndexOf(t, p), IndexOf(TextBytes(t), p);
            if i < 0 then j < 0 else i <= |t| && j == |TextBytes(t[..i])|
  {
    hide CharBytes, IsAscii, At, IndexOf;
    PrefixCommutes(t, p);
    IndexStep(t, p);
    IndexStep(TextBytes(t), p);
    if t != "" && !(p <= t) {
      assert p[0] in p;
      IndexCommutes(t[1..], p);
      var i := IndexOf(t[1..], p);
      if i >= 0 { assert t[..i + 1] == [t[0]] + t[1..][..i] && t[..i + 1][1..] == t[1..][..i]; }
      if IsAscii(t[0]) {
        assert TextBytes(t)[1..] == TextBytes(t[1..]);
      } else {
        IndexSkip(CharBytes(t[0]), TextBytes(t[1..]), p);
      }
    }
  }

  lemma {:induction false} IndexStep(s: string, p: string)
    requires p != ""
    ensures p <= s ==> IndexOf(s, p) == 0
    ensures !(p <= s) ==> IndexOf(s, p) == if s == "" || IndexOf(s[1..], p) < 0 then -1 else IndexOf(s[1..], p) + 1
    ensures IndexOf(s, p) <= |s|
  {
  }

  // ---------------------------------------------------------------------------
  // White space
  // ---------------------------------------------------------------------------

  function TrimLeftBytes(s: seq<Byte>): seq<Byte> {
    if s != [] && IsSpace(DecodeRune(s).rune as char) then TrimLeftBytes(s[DecodeRune(s).size..]) else s
  }

  function TrimRightBytes(s: seq<Byte>): seq<Byte> {
    if s != [] && IsSpace(LastRune(s).rune as char) then TrimRightBytes(s[..|s| - LastRune(s).size]) else s
  }

  /** `strings.TrimSpace` on any bytes; an invalid byte reads as U+FFFD, which is no white space. */
  function TrimBytes(s: seq<Byte>): seq<Byte> {
    TrimRightBytes(TrimLeftBytes(s))
  }

  lemma {:induction false} TrimLeftEncoded(t: string)
    ensures TrimLeftBytes(EncodeText(t)) == EncodeText(TrimLeft(t))
  {
    hide DecodeRune, EncodeRune, IsSpace;
    if t != "" {
      var e, rest := EncodeRune(t[0] as int), EncodeText(t[1..]);
      DecodeEncoded(t[0] as int, rest);
      assert (e + rest)[|e|..] == rest;
      TrimLeftEncoded(t[1..]);
    }
  }

  lemma {:induction false} TrimRightEncoded(t: string)
    ensures TrimRightBytes(EncodeText(t)) == EncodeText(TrimRight(t))
  {
    hide DecodeRune, EncodeRune, IsSpace, LastRune;
    if t != "" {
      var init, c := t[..|t| - 1], t[|t| - 1];
      var e := EncodeRune(c as int);
      EncodeTextConcat(init, [c]);
      assert t == init + [c] && EncodeText([c]) == e + EncodeText("") == e;
      LastEncoded(EncodeText(init), c as int);
      assert (EncodeText(init) + e)[..|EncodeText(init)|] == EncodeText(init);
      TrimRightEncoded(init);
    }
  }

  /** On the bytes of a text trimming is trimming the text. */
  lemma {:induction false} TrimEncoded(t: string)
    ensures TrimBytes(EncodeText(t)) == EncodeText(Trim(t))
  {
    TrimLeftEncoded(t);
    TrimRightEncoded(TrimLeft(t));
  }
}
