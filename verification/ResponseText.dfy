/**
  Finding the JSON object in a language model's reply: code fences first, then
  whatever stands around the outermost braces.
 */
module ResponseText {
  import opened Text

  const FENCE := "```"

  function WithoutOpeningFence(s: string): string {
    if "```json" <= s then s[7..] else if FENCE <= s then s[3..] else s
  }

  function StripFences(s: string): string {
    var t := WithoutOpeningFence(Trim(s));
    var idx := LastIndexOf(t, FENCE);
    Trim(if idx >= 0 then t[..idx] else t)
  }

  /** From the first opening to the last closing brace, if they are there in that order. */
  function OuterBraces(t: string): string {
    var start, end := IndexOf(t, "{"), LastIndexOf(t, "}");
    if start == -1 || end == -1 || start >= end then t else t[start..end + 1]
  }

  function SanitizeResponse(raw: string): string {
    OuterBraces(Trim(raw))
  }

  /** The text of a JSON object, as far as the extraction cares. */
  predicate IsObjectText(j: string) {
    j != "" && j[0] == '{' && j[|j| - 1] == '}'
  }

  /** Commentary around the object is cut off. */
  lemma {:induction false} CommentaryCut(pre: string, j: string, post: string)
    requires IsObjectText(j) && '{' !in pre && '}' !in post
    ensures SanitizeResponse(pre + (j + post)) == j
  {
    hide IndexOf, LastIndexOf, At, Trim;
    var post' := TrimRight(post);
    var w := TrimRightSplit(post);
    assert '}' !in post';
    var pre' := TrimAround(pre, j, post);
    var t := pre' + (j + post');
    assert t[..|pre'|] == pre' && t[|pre'| + |j| - 1 + 1..] == post';
    FirstChar(t, '{', |pre'|);
    LastChar(t, '}', |pre'| + |j| - 1);
    assert t[|pre'|..|pre'| + |j|] == j;
  }

  /** Trimming text around an object leaves the object alone. */
  lemma {:induction false} TrimAround(pre: string, j: string, post: string) returns (pre': string)
    requires IsObjectText(j)
    ensures Trim(pre + (j + post)) == pre' + (j + TrimRight(post))
    ensures forall c :: c in pre' ==> c in pre
  {
    var s := pre + (j + post);
    if pre != "" && IsSpace(pre[0]) {
      assert s[1..] == pre[1..] + (j + post);
      pre' := TrimAround(pre[1..], j, post);
    } else {
      pre' := pre;
      assert s == (pre + j) + post;
      assert TrimLeft(s) == s by { assert s[0] == if pre == "" then '{' else pre[0]; }
      TrimRightBehind(pre + j, post);
      assert (pre + j) + TrimRight(post) == pre + (j + TrimRight(post));
    }
  }

  lemma {:induction false} CutIsObject(t: string)
    ensures OuterBraces(t) == t || IsObjectText(OuterBraces(t))
  {
    hide IndexOf, LastIndexOf, At;
    AtChar(t, '{');
    AtChar(t, '}');
  }

  /** Cutting twice is cutting once. */
  lemma {:induction false} SanitizeResponseIdempotent(raw: string)
    ensures SanitizeResponse(SanitizeResponse(raw)) == SanitizeResponse(raw)
  {
    hide OuterBraces, Trim;
    TrimIdempotent(raw);
    CutIsObject(Trim(raw));
    var r := SanitizeResponse(raw);
    if r != Trim(raw) {
      CommentaryCut("", r, "");
      assert "" + (r + "") == r;
    }
  }

  // ---------------------------------------------------------------------------
  // Fenced replies
  // ---------------------------------------------------------------------------

  lemma {:induction false} OpeningFence(lang: string, w: string, rest: string)
    requires lang == "" || lang == "json"
    requires AllSpace(w) && rest != "" && rest[0] == '{'
    ensures WithoutOpeningFence(FENCE + lang + (w + rest)) == w + rest
  {
    var s := FENCE + lang + (w + rest);
    if lang == "json" {
      assert FENCE + lang == "```json";
    } else {
      assert s[3] == (w + rest)[0];
      assert (w + rest)[0] == '{' || IsSpace((w + rest)[0]);
    }
  }

  lemma {:induction false} FenceInTail(body: string, tail: string, idx: int)
    requires At(body + (FENCE + tail), idx, FENCE) && |body| + 3 <= idx
    ensures At(tail, idx - |body| - 3, FENCE)
  {
    assert (body + (FENCE + tail))[idx..idx + 3] == tail[idx - |body| - 3..idx - |body|];
  }

  lemma {:induction false} FenceAt(body: string, tail: string)
    ensures At(body + (FENCE + tail), |body|, FENCE)
  {
    assert (body + (FENCE + tail))[|body|..|body| + 3] == FENCE;
  }

  /** The last fence starts at most two characters into the closing one. */
  lemma {:induction false} LastFence(body: string, tail: string)
    requires Lacks(tail, FENCE)
    ensures |body| <= LastIndexOf(body + (FENCE + tail), FENCE) <= |body| + 2
  {
    hide LastIndexOf, At;
    var idx := LastIndexOf(body + (FENCE + tail), FENCE);
    FenceAt(body, tail);
    if |body| + 3 <= idx { FenceInTail(body, tail, idx); }
  }

  /**
    The object comes out of a fenced reply exactly, with or without the language name,
    whatever white space surrounds it and whatever commentary follows the closing fence,
    and even if the object itself contains fences.
   */
  lemma {:induction false} FencedObject(lead: string, lang: string, w: string, j: string, w': string, tail: string)
    requires lang == "" || lang == "json"
    requires AllSpace(lead) && AllSpace(w) && AllSpace(w')
    requires IsObjectText(j) && Lacks(tail, FENCE)
    ensures SanitizeResponse(StripFences(lead + (FENCE + lang + (w + (j + (w' + (FENCE + tail))))))) == j
  {
    hide SanitizeResponse, LastIndexOf, WithoutOpeningFence, At, IndexOf;
    var tail' := TrimmedTail(lead, lang, w + (j + w'), tail);
    var rest := j + (w' + (FENCE + tail'));
    var core := FENCE + lang + (w + rest);
    assert Trim(lead + (FENCE + lang + (w + (j + (w' + (FENCE + tail)))))) == core by {
      assert lead + (FENCE + lang + (w + (j + (w' + (FENCE + tail)))))
          == lead + ((FENCE + lang + (w + (j + w')) + FENCE) + tail);
      assert core == (FENCE + lang + (w + (j + w')) + FENCE) + tail';
    }
    OpeningFence(lang, w, rest);
    var body := w + (j + w');
    assert w + rest == body + (FENCE + tail');
    LastFence(body, tail');
    var idx := LastIndexOf(w + rest, FENCE);
    var ticks := FENCE[..idx - |body|];
    assert (w + rest)[..idx] == w + (j + (w' + ticks));
    assert '}' !in w' + ticks by { assert !IsSpace('}'); }
    assert '{' !in w by { assert !IsSpace('{'); }
    var pre := TrimAround(w, j, w' + ticks);
    var post := TrimRight(w' + ticks);
    var cut := TrimRightSplit(w' + ticks);
    assert '}' !in post;
    CommentaryCut(pre, j, post);
  }

  lemma {:induction false} TrimmedTail(lead: string, lang: string, body: string, tail: string) returns (tail': string)
    requires AllSpace(lead) && Lacks(tail, FENCE)
    ensures Lacks(tail', FENCE)
    ensures Trim(lead + ((FENCE + lang + body + FENCE) + tail)) == (FENCE + lang + body + FENCE) + tail'
  {
    hide At;
    var core := FENCE + lang + body + FENCE;
    tail' := TrimRight(tail);
    var w := TrimRightSplit(tail);
    LacksPrefix(tail', w, FENCE);
    TrimLeftPad(lead, core + tail);
    assert (core + tail)[0] == '`';
    TrimRightBehind(core, tail);
  }

  lemma {:induction false} LacksPrefix(a: string, b: string, pat: string)
    requires Lacks(a + b, pat)
    ensures Lacks(a, pat)
  {
    forall k
      ensures !At(a, k, pat)
    {
      if 0 <= k && k + |pat| <= |a| {
        assert a[k..k + |pat|] == (a + b)[k..k + |pat|];
        assert !At(a + b, k, pat);
      }
    }
  }

  // ---------------------------------------------------------------------------
  // Replies without a fence, or without an object
  // ---------------------------------------------------------------------------

  /** Without a fence the reply is only trimmed. */
  lemma {:induction false} NoFence(raw: string)
    requires Lacks(Trim(raw), FENCE)
    ensures StripFences(raw) == Trim(raw)
  {
    hide Trim, LastIndexOf;
    var t := Trim(raw);
    NoFenceAhead(t);
    TrimIdempotent(raw);
  }

  lemma {:induction false} NoFenceAhead(t: string)
    requires Lacks(t, FENCE)
    ensures !(FENCE <= t) && !("```json" <= t) && LastIndexOf(t, FENCE) < 0
  {
    JsonFence(t);
    assert !At(t, 0, FENCE);
  }

  lemma {:induction false} JsonFence(t: string)
    ensures "```json" <= t ==> FENCE <= t
  {
    if "```json" <= t { assert t[..3] == t[..7][..3] == FENCE; }
  }

  /** The object comes out of a plain reply exactly, whatever commentary surrounds it. */
  lemma {:induction false} PlainObject(pre: string, j: string, post: string)
    requires IsObjectText(j) && '{' !in pre && '}' !in post && Lacks(pre + (j + post), FENCE)
    ensures SanitizeResponse(StripFences(pre + (j + post))) == j
  {
    hide Trim, Lacks, OuterBraces, LastIndexOf;
    var raw := pre + (j + post);
    TrimLacks(raw);
    NoFence(raw);
    TrimIdempotent(raw);
    CommentaryCut(pre, j, post);
  }

  lemma {:induction false} TrimLacks(s: string)
    requires Lacks(s, FENCE)
    ensures Lacks(Trim(s), FENCE)
  {
    hide Trim;
    var t := Trim(s);
    var w, w' := TrimSplit(s);
    forall k
      ensures !At(t, k, FENCE)
    {
      FenceInside(w, t, w', k);
      assert !At(s, |w| + k, FENCE);
    }
  }

  lemma {:induction false} FenceInside(w: string, t: string, w': string, k: int)
    ensures At(t, k, FENCE) ==> At(w + t + w', |w| + k, FENCE)
  {
    if At(t, k, FENCE) { assert (w + t + w')[|w| + k..|w| + k + 3] == t[k..k + 3]; }
  }

  /** Without an opening brace, without a closing one, or with none behind the first opening one, nothing is cut. */
  lemma {:induction false} NoObject(raw: string)
    requires var t := Trim(raw); forall i, k :: 0 <= i <= k < |t| && t[i] == '{' ==> t[k] != '}'
    ensures SanitizeResponse(raw) == Trim(raw)
  {
    hide Trim, IndexOf, LastIndexOf, At;
    var t := Trim(raw);
    AtChar(t, '{');
    AtChar(t, '}');
  }

  /** A fence that is opened and never closed is cut off all the same. */
  lemma {:induction false} OpenFence(lang: string, rest: string)
    requires lang == "" || lang == "json"
    requires lang == "" ==> !("json" <= rest)
    requires Trimmed(FENCE + lang + rest) && Lacks(rest, FENCE)
    ensures StripFences(FENCE + lang + rest) == Trim(rest)
  {
    hide Trim, LastIndexOf, Lacks;
    var s := FENCE + lang + rest;
    TrimFixed(s);
    NoFenceAhead(rest);
    OpenCut(lang, rest);
  }

  /** What stands between the fences is taken, even if that is nothing or has fences itself. */
  lemma {:induction false} ClosedFence(lang: string, body: string, tail: string)
    requires lang == "" || lang == "json"
    requires lang == "" ==> !("json" <= body + (FENCE + tail))
    requires '`' !in tail && Trimmed(FENCE + lang + (body + (FENCE + tail)))
    ensures StripFences(FENCE + lang + (body + (FENCE + tail))) == Trim(body)
  {
    hide Trim, LastIndexOf, Lacks, WithoutOpeningFence;
    var rest := body + (FENCE + tail);
    TrimFixed(FENCE + lang + rest);
    OpenCut(lang, rest);
    LastTicks(body, tail);
    assert rest[..|body|] == body;
  }

  lemma {:induction false} LastTicks(body: string, tail: string)
    requires '`' !in tail
    ensures LastIndexOf(body + (FENCE + tail), FENCE) == |body|
  {
    hide LastIndexOf, At;
    var rest := body + (FENCE + tail);
    forall k
      ensures !At(tail, k, FENCE)
    {
      FenceTicks(tail, k);
    }
    LastFence(body, tail);
    FenceTicks(rest, LastIndexOf(rest, FENCE));
    assert forall k :: |body| + 3 <= k < |rest| ==> rest[k] == tail[k - |body| - 3] && rest[k] in tail;
  }

  lemma {:induction false} FenceTicks(s: string, k: int)
    ensures At(s, k, FENCE) ==> 0 <= k && k + 3 <= |s| && s[k] == s[k + 2] == '`'
  {
    if At(s, k, FENCE) { assert s[k] == s[k..k + 3][0] && s[k + 2] == s[k..k + 3][2]; }
  }

  lemma {:induction false} OpenCut(lang: string, rest: string)
    requires lang == "" || lang == "json"
    requires lang == "" ==> !("json" <= rest)
    ensures WithoutOpeningFence(FENCE + lang + rest) == rest
  {
    var s := FENCE + lang + rest;
    if lang == "json" {
      assert FENCE + lang == "```json";
    } else {
      assert s == FENCE + rest && s[3..] == rest;
      JsonBehind(rest);
    }
  }

  lemma {:induction false} JsonBehind(rest: string)
    ensures "```json" <= FENCE + rest ==> "json" <= rest
  {
    var s := FENCE + rest;
    if "```json" <= s { assert rest[..4] == s[..7][3..] == "json"; }
  }
}
