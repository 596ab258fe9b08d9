/**
  Strings as sequences of Unicode scalar values, with the few operations of Go's
  `strings` package that the repository uses.
 */
module Text {

  datatype Option<+T> = None | Some(value: T)

  /** White space as Go's `unicode.IsSpace` defines it. */
  predicate IsSpace(c: char) {
    '\t' <= c <= '\r' || c == ' ' || c == '\U{85}' || c == '\U{A0}' || c == '\U{1680}'
    || '\U{2000}' <= c <= '\U{200A}' || c == '\U{2028}' || c == '\U{2029}'
    || c == '\U{202F}' || c == '\U{205F}' || c == '\U{3000}'
  }

  predicate IsLetter(c: char) {
    'a' <= c <= 'z' || 'A' <= c <= 'Z'
  }

  predicate IsDigit(c: char) {
    '0' <= c <= '9'
  }

  function AsciiLowerChar(c: char): char {
    if 'A' <= c <= 'Z' then (c as int + 32) as char else c
  }

  /** Lower case of text that is compared byte by byte with ASCII words. */
  function AsciiLower(s: string): (r: string)
    ensures |r| == |s|
    ensures forall i :: 0 <= i < |s| ==> r[i] == AsciiLowerChar(s[i])
  {
    seq(|s|, i requires 0 <= i < |s| => AsciiLowerChar(s[i]))
  }

  /**
    Lower case of one scalar: exact for every scalar whose lower case is ASCII
    (U+0130 and U+212A are the two outside ASCII); other scalars stay as they are.
   */
  function LowerChar(c: char): char {
    if c == '\U{130}' then 'i' else if c == '\U{212A}' then 'k' else AsciiLowerChar(c)
  }

  /** `strings.ToLower`. */
  function ToLower(s: string): (r: string)
    ensures |r| == |s|
    ensures forall i :: 0 <= i < |s| ==> r[i] == LowerChar(s[i])
  {
    seq(|s|, i requires 0 <= i < |s| => LowerChar(s[i]))
  }

  // ---------------------------------------------------------------------------
  // Searching
  // ---------------------------------------------------------------------------

  /** `pat` occurs in `s` at position `k`. */
  predicate At(s: string, k: int, pat: string) {
    0 <= k && k + |pat| <= |s| && s[k..k + |pat|] == pat
  }

  lemma {:induction false} SliceTail(s: string, i: nat, j: nat)
    requires 1 <= i <= j <= |s|
    ensures s[i..j] == s[1..][i - 1..j - 1]
  {
    forall k | 0 <= k < j - i
      ensures s[i..j][k] == s[1..][i - 1..j - 1][k]
    {
    }
  }

  lemma {:induction false} AtTail(s: string, pat: string)
    requires s != ""
    ensures forall k :: 1 <= k ==> (At(s, k, pat) <==> At(s[1..], k - 1, pat))
    ensures forall k :: At(s[1..], k, pat) ==> At(s, k + 1, pat)
  {
    forall k | 1 <= k
      ensures At(s, k, pat) <==> At(s[1..], k - 1, pat)
    {
      if k + |pat| <= |s| {
        SliceTail(s, k, k + |pat|);
      }
    }
    assert forall k :: At(s[1..], k, pat) ==> At(s[1..], (k + 1) - 1, pat);
  }

  /** `strings.Index`: the first occurrence, or -1. */
  function IndexOf(s: string, pat: string): (r: int)
    ensures -1 <= r
    ensures r >= 0 ==> At(s, r, pat)
    ensures forall k :: 0 <= k && (r < 0 || k < r) ==> !At(s, k, pat)
  {
    if pat <= s then 0
    else if s == "" then -1
    else
      var r := IndexOf(s[1..], pat);
      AtTail(s, pat);
      if r < 0 then -1 else r + 1
  }

  /** `strings.LastIndex`: the last occurrence, or -1. */
  function LastIndexOf(s: string, pat: string): (r: int)
    ensures -1 <= r
    ensures r >= 0 ==> At(s, r, pat)
    ensures forall k :: r < k ==> !At(s, k, pat)
  {
    if s == "" then (if pat == "" then 0 else -1)
    else
      var r := LastIndexOf(s[1..], pat);
      AtTail(s, pat);
      if r >= 0 then r + 1 else if pat <= s then 0 else -1
  }

  lemma {:induction false} FirstChar(s: string, c: char, i: nat)
    requires i < |s| && s[i] == c && c !in s[..i]
    ensures IndexOf(s, [c]) == i
  {
    hide IndexOf, At;
    AtChar(s, c);
    assert forall k :: 0 <= k < i ==> s[k] == s[..i][k];
  }

  lemma {:induction false} LastChar(s: string, c: char, i: nat)
    requires i < |s| && s[i] == c && c !in s[i + 1..]
    ensures LastIndexOf(s, [c]) == i
  {
    hide LastIndexOf, At;
    AtChar(s, c);
    assert forall k :: i < k < |s| ==> s[k] == s[i + 1..][k - i - 1];
  }

  ghost predicate Lacks(s: string, pat: string) {
    forall k :: !At(s, k, pat)
  }

  lemma {:induction false} AtChar(s: string, c: char)
    ensures forall k :: At(s, k, [c]) <==> 0 <= k < |s| && s[k] == c
    ensures c !in s <==> Lacks(s, [c])
  {
    forall k | 0 <= k < |s|
      ensures At(s, k, [c]) <==> s[k] == c
    {
      assert s[k..k + 1] == [s[k]];
    }
    if c in s {
      var k :| 0 <= k < |s| && s[k] == c;
      assert At(s, k, [c]);
    }
  }

  /** No proper suffix of `pat` is a prefix of it, so occurrences never overlap. */
  ghost predicate Borderless(pat: string) {
    forall d :: 0 < d < |pat| ==> pat[d..] != pat[..|pat| - d]
  }

  /** An occurrence starting in `body` lies inside it or overlaps the `pat` that follows. */
  lemma {:induction false} OccurrenceParts(body: string, pat: string, rest: string, k: nat)
    requires k < |body| && At(body + pat + rest, k, pat)
    ensures k + |pat| <= |body| ==> At(body, k, pat)
    ensures |body| < k + |pat| ==> pat[|body| - k..] == pat[..|pat| - (|body| - k)]
  {
    var w := body + pat + rest;
    if k + |pat| <= |body| {
      assert body[k..k + |pat|] == w[k..k + |pat|];
    } else {
      var d := |body| - k;
      assert pat[d..] == w[k..k + |pat|][d..] == w[|body|..|body| + |pat| - d] == pat[..|pat| - d];
    }
  }

  /** A borderless pattern put after text that lacks it is found just there. */
  lemma {:induction false} FirstOccurrence(body: string, pat: string, rest: string)
    requires pat != "" && Borderless(pat)
    requires Lacks(body, pat)
    ensures At(body + pat + rest, |body|, pat)
    ensures forall k :: k < |body| ==> !At(body + pat + rest, k, pat)
  {
    var w := body + pat + rest;
    assert w[|body|..|body| + |pat|] == pat;
    forall k | 0 <= k < |body|
      ensures !At(w, k, pat)
    {
      if At(w, k, pat) { OccurrenceParts(body, pat, rest, k); }
    }
  }

  // ---------------------------------------------------------------------------
  // Trimming
  // ---------------------------------------------------------------------------

  predicate AllSpace(s: string) {
    forall c :: c in s ==> IsSpace(c)
  }

  /** No white space at either end. */
  predicate Trimmed(s: string) {
    s != "" ==> !IsSpace(s[0]) && !IsSpace(s[|s| - 1])
  }

  function TrimLeft(s: string): string {
    if s != "" && IsSpace(s[0]) then TrimLeft(s[1..]) else s
  }

  function TrimRight(s: string): string {
    if s != "" && IsSpace(s[|s| - 1]) then TrimRight(s[..|s| - 1]) else s
  }

  /** `strings.TrimSpace`. */
  function Trim(s: string): string {
    TrimRight(TrimLeft(s))
  }

  lemma {:induction false} TrimLeftSplit(s: string) returns (w: string)
    ensures AllSpace(w) && s == w + TrimLeft(s)
    ensures TrimLeft(s) != "" ==> !IsSpace(TrimLeft(s)[0])
  {
    if s != "" && IsSpace(s[0]) {
      w := TrimLeftSplit(s[1..]);
      w := [s[0]] + w;
    } else {
      w := "";
    }
  }

  lemma {:induction false} TrimRightSplit(s: string) returns (w: string)
    ensures AllSpace(w) && s == TrimRight(s) + w
    ensures TrimRight(s) != "" ==> !IsSpace(TrimRight(s)[|TrimRight(s)| - 1])
  {
    if s != "" && IsSpace(s[|s| - 1]) {
      w := TrimRightSplit(s[..|s| - 1]);
      assert s == s[..|s| - 1] + [s[|s| - 1]];
      w := w + [s[|s| - 1]];
    } else {
      w := "";
    }
  }

  /** Trimming cuts white space off both ends and leaves none there. */
  lemma {:induction false} TrimSplit(s: string) returns (w: string, w': string)
    ensures AllSpace(w) && AllSpace(w') && s == w + Trim(s) + w' && Trimmed(Trim(s))
  {
    w := TrimLeftSplit(s);
    w' := TrimRightSplit(TrimLeft(s));
    if Trim(s) != "" {
      assert TrimLeft(s)[0] == Trim(s)[0];
    }
  }

  lemma {:induction false} TrimLeftPad(w: string, s: string)
    requires AllSpace(w)
    ensures TrimLeft(w + s) == TrimLeft(s)
  {
    if w == "" {
      assert w + s == s;
    } else {
      assert w[0] in w;
      assert (w + s)[1..] == w[1..] + s;
      TrimLeftPad(w[1..], s);
    }
  }

  lemma {:induction false} TrimRightPad(s: string, w: string)
    requires AllSpace(w)
    ensures TrimRight(s + w) == TrimRight(s)
  {
    if w == "" {
      assert s + w == s;
    } else {
      assert w[|w| - 1] in w;
      assert (s + w)[..|s + w| - 1] == s + w[..|w| - 1];
      TrimRightPad(s, w[..|w| - 1]);
    }
  }

  /** White space around a trimmed string is exactly what trimming removes. */
  lemma {:induction false} TrimPad(w: string, s: string, w': string)
    requires AllSpace(w) && AllSpace(w') && Trimmed(s)
    ensures Trim(w + s + w') == s
  {
    assert w + s + w' == w + (s + w');
    TrimLeftPad(w, s + w');
    if s == "" {
      assert s + w' == w' == w' + "";
      TrimLeftPad(w', "");
    } else {
      TrimRightPad(s, w');
    }
  }

  lemma {:induction false} TrimFixed(s: string)
    requires Trimmed(s)
    ensures Trim(s) == s
  {
    TrimPad("", s, "");
    assert "" + s + "" == s;
  }

  lemma {:induction false} TrimIdempotent(s: string)
    ensures Trim(Trim(s)) == Trim(s) && Trimmed(Trim(s))
  {
    var w, w' := TrimSplit(s);
    TrimFixed(Trim(s));
  }

  /** Trimming in front of a trimmed text only touches what stands before it. */
  lemma {:induction false} TrimInFront(p: string, body: string) returns (p': string)
    requires Trimmed(body) && body != ""
    ensures Trim(p + body) == p' + body
    ensures forall c :: c in p' ==> c in p
  {
    if p != "" && IsSpace(p[0]) {
      assert (p + body)[1..] == p[1..] + body;
      p' := TrimInFront(p[1..], body);
    } else {
      p' := p;
      TrimFixed(p + body);
    }
  }

  /** Behind a text without white space at its end, trimming only touches what follows. */
  lemma {:induction false} TrimRightBehind(body: string, q: string)
    requires body != "" && !IsSpace(body[|body| - 1])
    ensures TrimRight(body + q) == body + TrimRight(q)
  {
    if q == "" {
      assert body + q == body;
    } else if IsSpace(q[|q| - 1]) {
      assert (body + q)[..|body + q| - 1] == body + q[..|q| - 1];
      TrimRightBehind(body, q[..|q| - 1]);
    }
  }

  // ---------------------------------------------------------------------------
  // Subsequences
  // ---------------------------------------------------------------------------

  /** `a` can be had from `b` by deleting characters. */
  predicate Subsequence(a: string, b: string) {
    a == "" || (b != "" && ((a[0] == b[0] && Subsequence(a[1..], b[1..])) || Subsequence(a, b[1..])))
  }

  lemma {:induction false} SubsequenceRefl(a: string)
    ensures Subsequence(a, a)
  {
    if a != "" { SubsequenceRefl(a[1..]); }
  }

  lemma {:induction false} SubsequenceConcat(a: string, b: string, a': string, b': string)
    requires Subsequence(a, b) && Subsequence(a', b')
    ensures Subsequence(a + a', b + b')
    decreases |b|
  {
    if b == "" {
      assert a + a' == a' && b + b' == b';
    } else {
      assert (b + b')[1..] == b[1..] + b';
      if a == "" {
        SubsequenceConcat(a, b[1..], a', b');
      } else if a[0] == b[0] && Subsequence(a[1..], b[1..]) {
        assert (a + a')[1..] == a[1..] + a';
        SubsequenceConcat(a[1..], b[1..], a', b');
      } else {
        SubsequenceConcat(a, b[1..], a', b');
      }
    }
  }

  lemma {:induction false} SubsequenceTrans(a: string, b: string, c: string)
    requires Subsequence(a, b) && Subsequence(b, c)
    ensures Subsequence(a, c)
    decreases |c|
  {
    if a == "" {
    } else if b[0] == c[0] && Subsequence(b[1..], c[1..]) {
      if a[0] == b[0] && Subsequence(a[1..], b[1..]) {
        SubsequenceTrans(a[1..], b[1..], c[1..]);
      } else {
        SubsequenceTrans(a, b[1..], c[1..]);
      }
    } else {
      SubsequenceTrans(a, b, c[1..]);
    }
  }

  lemma {:induction false} SubsequenceLength(a: string, b: string)
    requires Subsequence(a, b)
    ensures |a| <= |b|
    decreases |b|
  {
    if a != "" {
      if a[0] == b[0] && Subsequence(a[1..], b[1..]) {
        SubsequenceLength(a[1..], b[1..]);
      } else {
        SubsequenceLength(a, b[1..]);
      }
    }
  }

  lemma {:induction false} SubsequenceMembers(a: string, b: string)
    requires Subsequence(a, b)
    ensures forall c :: c in a ==> c in b
    decreases |b|
  {
    if a != "" {
      assert forall c :: c in a ==> c == a[0] || c in a[1..];
      assert forall c :: c in b[1..] ==> c in b;
      if a[0] == b[0] && Subsequence(a[1..], b[1..]) {
        assert a[0] in b;
        SubsequenceMembers(a[1..], b[1..]);
      } else {
        SubsequenceMembers(a, b[1..]);
      }
    }
  }
}
