/**
  `classifyWithPartialFallback`: one classification call, at most one repair call, and
  the accounting of which requested message ended up valid and which failed.
 */
module Classify {
  import opened Text
  import opened Decimal
  import opened Mail
  import opened ResponseParser
  import ResponseText

  // ---------------------------------------------------------------------------
  // The provider
  // ---------------------------------------------------------------------------

  /** What is sent to the model: the messages to classify, or a reply to repair. */
  datatype Request =
    | ClassifyRequest(labels: seq<string>, messages: seq<MessageKey>)
    | RepairRequest(labels: seq<string>, raw: string, error: ParseError)

  /** A model that answers its n-th request as scripted; `None` is a provider error. */
  class Provider {
    const script: nat -> Option<string>
    var requests: seq<Request>

    constructor (script: nat -> Option<string>)
      ensures this.script == script && requests == []
    {
      this.script := script;
      requests := [];
    }

    method Classify(request: Request) returns (reply: Option<string>)
      modifies this
      ensures requests == old(requests) + [request]
      ensures reply == script(|old(requests)|)
    {
      reply := script(|requests|);
      requests := requests + [request];
    }
  }

  // ---------------------------------------------------------------------------
  // Specification
  // ---------------------------------------------------------------------------

  datatype Outcome = Outcome(
    valid: seq<Classification>, failed: seq<Classification>, errors: seq<AnalysisError>, hardError: bool)

  function KeySet(cs: seq<Classification>): set<MessageKey> {
    set c | c in cs :: c.key
  }

  /** The requested keys outside `have`, in request order. */
  function Missing(keys: seq<MessageKey>, have: set<MessageKey>): seq<MessageKey> {
    if keys == [] then []
    else (if keys[0] in have then [] else [keys[0]]) + Missing(keys[1..], have)
  }

  function FailedFor(keys: seq<MessageKey>): (r: seq<Classification>)
    ensures |r| == |keys| && forall i :: 0 <= i < |r| ==> r[i] == FailedClassification(keys[i])
  {
    seq(|keys|, i requires 0 <= i < |keys| => FailedClassification(keys[i]))
  }

  function ErrorsFor(keys: seq<MessageKey>, error: Failure, stage: Stage): (r: seq<AnalysisError>)
    ensures |r| == |keys| && forall i :: 0 <= i < |r| ==> r[i] == AnalysisError(keys[i], error, stage)
  {
    seq(|keys|, i requires 0 <= i < |keys| => AnalysisError(keys[i], error, stage))
  }

  /** `more` appended to `cs`, without the entries whose key is there already. */
  function Merged(cs: seq<Classification>, more: seq<Classification>): seq<Classification>
    decreases |more|
  {
    if more == [] then cs
    else Merged(if more[0].key in KeySet(cs) then cs else cs + [more[0]], more[1..])
  }

  /** A negative setting counts as one attempt; any positive one allows a single repair. */
  predicate MayRepair(maxAttempts: int) {
    maxAttempts != 0
  }

  function WithFailed(valid: seq<Classification>, missing: seq<MessageKey>, error: Failure, stage: Stage): Outcome {
    Outcome(valid, FailedFor(missing), ErrorsFor(missing, error, stage), false)
  }

  /** After a first reply that did not parse cleanly and left `missing` open. */
  function AfterRepair(keys: seq<MessageKey>, valid: seq<Classification>, missing: seq<MessageKey>,
                       repair: Option<string>, decode: string -> Option<Wrapper>, labels: seq<string>): Outcome {
    match repair
    case None => WithFailed(valid, missing, RepairUnavailable, RepairStage)
    case Some(raw) =>
      var repaired := ParsedResponse(raw, decode, labels);
      match repaired.error
      case Some(e) => WithFailed(valid, missing, RepairInvalid(e), RepairStage)
      case None =>
        var merged := Merged(valid, repaired.classifications);
        WithFailed(merged, Missing(keys, KeySet(merged)), NotRepaired, RepairStage)
  }

  /** Whether the first reply calls for a repair request. */
  predicate RepairSent(keys: seq<MessageKey>, first: string, decode: string -> Option<Wrapper>,
                       labels: seq<string>, maxAttempts: int) {
    var parsed := ParsedResponse(first, decode, labels);
    && parsed.error.Some?
    && Missing(keys, KeySet(parsed.classifications)) != []
    && MayRepair(maxAttempts)
    && !IsBlank(first)
  }

  function ClassifyOutcome(keys: seq<MessageKey>, first: Option<string>, repair: Option<string>,
                           decode: string -> Option<Wrapper>, labels: seq<string>, maxAttempts: int): Outcome {
    match first
    case None => Outcome([], [], [], true)
    case Some(raw) =>
      var parsed := ParsedResponse(raw, decode, labels);
      var valid := parsed.classifications;
      var missing := Missing(keys, KeySet(valid));
      match parsed.error
      case None => Outcome(valid, [], [], false)
      case Some(e) =>
        if missing == [] then Outcome(valid, [], [], false)
        else if !MayRepair(maxAttempts) then WithFailed(valid, missing, ParseFailed(e), ParseStage)
        else AfterRepair(keys, valid, missing, if IsBlank(raw) then None else repair, decode, labels)
  }

  // ---------------------------------------------------------------------------
  // The loops of the program
  // ---------------------------------------------------------------------------

  method CollectKeys(cs: seq<Classification>) returns (keys: set<MessageKey>)
    ensures keys == KeySet(cs)
  {
    keys := {};
    for i := 0 to |cs|
      invariant keys == KeySet(cs[..i])
    {
      assert cs[..i + 1] == cs[..i] + [cs[i]];
      keys := keys + {cs[i].key};
    }
    assert cs[..|cs|] == cs;
  }

  /** The loops over the request that pick out the keys without a valid analysis. */
  method MissingKeys(keys: seq<MessageKey>, have: set<MessageKey>) returns (missing: seq<MessageKey>)
    ensures missing == Missing(keys, have)
  {
    missing := [];
    for i := 0 to |keys|
      invariant missing + Missing(keys[i..], have) == Missing(keys, have)
    {
      assert keys[i..][1..] == keys[i + 1..];
      if keys[i] !in have { missing := missing + [keys[i]]; }
    }
  }

  method Merge(cs: seq<Classification>, more: seq<Classification>) returns (merged: seq<Classification>)
    ensures merged == Merged(cs, more)
  {
    merged := cs;
    var keys := CollectKeys(cs);
    for i := 0 to |more|
      invariant keys == KeySet(merged)
      invariant Merged(merged, more[i..]) == Merged(cs, more)
    {
      assert more[i..][1..] == more[i + 1..];
      if more[i].key !in keys {
        merged := merged + [more[i]];
        keys := keys + {more[i].key};
      }
    }
  }

  /** `repairOnce`: no request is sent for a blank reply. */
  method RepairOnce(provider: Provider, raw: string, error: ParseError, labels: seq<string>)
      returns (reply: Option<string>)
    modifies provider
    ensures IsBlank(raw) ==> reply == None && provider.requests == old(provider.requests)
    ensures !IsBlank(raw) ==>
            && provider.requests == old(provider.requests) + [RepairRequest(labels, raw, error)]
            && reply == provider.script(|old(provider.requests)|)
  {
    if IsBlank(raw) { return None; }
    reply := provider.Classify(RepairRequest(labels, raw, error));
  }

  method ClassifyWithPartialFallback(provider: Provider, keys: seq<MessageKey>, decode: string -> Option<Wrapper>,
                                     labels: seq<string>, maxAttempts: int) returns (outcome: Outcome)
    modifies provider
    ensures var n := |old(provider.requests)|;
            outcome == ClassifyOutcome(keys, provider.script(n), provider.script(n + 1), decode, labels, maxAttempts)
    ensures var n := |old(provider.requests)|;
            var first := provider.script(n);
            provider.requests == old(provider.requests) + [ClassifyRequest(labels, keys)]
              + if first.Some? && RepairSent(keys, first.value, decode, labels, maxAttempts)
                then [RepairRequest(labels, first.value, ParsedResponse(first.value, decode, labels).error.value)]
                else []
  {
    hide ParsedResponse, IsBlank, Missing, Merged;
    var first := provider.Classify(ClassifyRequest(labels, keys));
    if first == None { return Outcome([], [], [], true); }
    var parsed := ParseResponse(first.value, decode, labels);
    var valid := parsed.classifications;
    if parsed.error == None { return Outcome(valid, [], [], false); }
    var e := parsed.error.value;
    var have := CollectKeys(valid);
    var missing := MissingKeys(keys, have);
    if missing == [] { return Outcome(valid, [], [], false); }
    if maxAttempts == 0 { return WithFailed(valid, missing, ParseFailed(e), ParseStage); }
    var repair := RepairOnce(provider, first.value, e, labels);
    if repair == None { return WithFailed(valid, missing, RepairUnavailable, RepairStage); }
    var repaired := ParseResponse(repair.value, decode, labels);
    if repaired.error.Some? {
      return WithFailed(valid, missing, RepairInvalid(repaired.error.value), RepairStage);
    }
    var merged := Merge(valid, repaired.classifications);
    have := CollectKeys(merged);
    missing := MissingKeys(keys, have);
    outcome := WithFailed(merged, missing, NotRepaired, RepairStage);
  }

  // ---------------------------------------------------------------------------
  // Accounting
  // ---------------------------------------------------------------------------

  lemma {:induction false} MissingExact(keys: seq<MessageKey>, have: set<MessageKey>)
    ensures forall k :: k in Missing(keys, have) <==> k in keys && k !in have
    ensures Distinct(keys) ==> Distinct(Missing(keys, have))
  {
    if keys != [] {
      var m := Missing(keys[1..], have);
      MissingExact(keys[1..], have);
      assert forall k :: k in keys <==> k == keys[0] || k in keys[1..];
      if Distinct(keys) {
        assert Distinct(keys[1..]);
        assert keys[0] !in keys[1..];
      }
    }
  }

  /** Missing keys come in the order they were asked for. */
  lemma {:induction false} MissingConcat(a: seq<MessageKey>, b: seq<MessageKey>, have: set<MessageKey>)
    ensures Missing(a + b, have) == Missing(a, have) + Missing(b, have)
  {
    if a == [] {
      assert a + b == b;
    } else {
      assert (a + b)[1..] == a[1..] + b;
      MissingConcat(a[1..], b, have);
    }
  }

  /** New results are merged one after the other. */
  lemma {:induction false} MergedConcat(cs: seq<Classification>, a: seq<Classification>, b: seq<Classification>)
    ensures Merged(cs, a + b) == Merged(Merged(cs, a), b)
    decreases |a|
  {
    hide KeySet;
    if a == [] {
      assert a + b == b;
    } else {
      assert (a + b)[1..] == a[1..] + b;
      MergedConcat(if a[0].key in KeySet(cs) then cs else cs + [a[0]], a[1..], b);
    }
  }

  lemma {:induction false} AppendNewKey(cs: seq<Classification>, c: Classification)
    requires Distinct(Keys(cs)) && c.key !in KeySet(cs)
    ensures Distinct(Keys(cs + [c])) && KeySet(cs + [c]) == KeySet(cs) + {c.key}
  {
    KeySetMembers(cs);
    assert Keys(cs + [c]) == Keys(cs) + [c.key];
  }

  /** Merging keeps what was there, in front, and adds each new key once. */
  lemma {:induction false} MergedExact(cs: seq<Classification>, more: seq<Classification>)
    requires Distinct(Keys(cs))
    ensures cs <= Merged(cs, more)
    ensures KeySet(Merged(cs, more)) == KeySet(cs) + KeySet(more)
    ensures Distinct(Keys(Merged(cs, more)))
    ensures forall c :: c in Merged(cs, more) ==> c in cs || c in more
    decreases |more|
  {
    hide Distinct, Keys;
    if more != [] {
      var next := if more[0].key in KeySet(cs) then cs else cs + [more[0]];
      if more[0].key !in KeySet(cs) { AppendNewKey(cs, more[0]); }
      MergedExact(next, more[1..]);
      assert KeySet(more) == {more[0].key} + KeySet(more[1..]) by { assert more == [more[0]] + more[1..]; }
    }
  }

  lemma {:induction false} KeySetMembers(cs: seq<Classification>)
    ensures forall k :: k in KeySet(cs) <==> k in Keys(cs)
  {
    forall k
      ensures k in KeySet(cs) <==> k in Keys(cs)
    {
      if k in KeySet(cs) {
        var c :| c in cs && c.key == k;
        var i :| 0 <= i < |cs| && cs[i] == c;
        assert Keys(cs)[i] == k;
      }
    }
  }

  /** The requested key is in exactly one of the two lists. */
  ghost predicate AccountedOnce(k: MessageKey, o: Outcome) {
    (k in KeySet(o.valid)) != (k in KeySet(o.failed))
  }

  /** Everything the digest relies on, whatever the provider replies. */
  ghost predicate Accounted(keys: seq<MessageKey>, first: Parsed, o: Outcome) {
    && !o.hardError
    && |o.failed| == |o.errors|
    && (forall i :: 0 <= i < |o.failed| ==> o.failed[i] == FailedClassification(o.errors[i].key))
    && (forall i :: 0 <= i < |o.failed| ==> o.failed[i].key in keys)
    && (Distinct(keys) ==> Distinct(Keys(o.failed)))
    && Distinct(Keys(o.valid))
    && (forall c :: c in o.valid ==> c.analysisError == None)
    && KeySet(o.valid) !! KeySet(o.failed)
    && first.classifications <= o.valid
  }

  /** A path that fails exactly the keys without a valid analysis keeps the books. */
  lemma {:induction false} WithFailedAccounts(keys: seq<MessageKey>, first: Parsed, valid: seq<Classification>,
                                              error: Failure, stage: Stage)
    requires Distinct(Keys(valid)) && first.classifications <= valid
    requires forall c :: c in valid ==> c.analysisError == None
    ensures var o := WithFailed(valid, Missing(keys, KeySet(valid)), error, stage);
            Accounted(keys, first, o) && forall k :: k in keys ==> AccountedOnce(k, o)
  {
    var missing := Missing(keys, KeySet(valid));
    var o := WithFailed(valid, missing, error, stage);
    MissingExact(keys, KeySet(valid));
    assert Keys(o.failed) == missing;
    KeySetMembers(o.failed);
  }

  lemma {:induction false} CleanAccounts(keys: seq<MessageKey>, first: Parsed)
    requires Distinct(Keys(first.classifications))
    requires forall c :: c in first.classifications ==> c.analysisError == None
    ensures Accounted(keys, first, Outcome(first.classifications, [], [], false))
    ensures KeySet([]) == {}
  {
  }

  /**
    Repair accounting. On every path without a hard provider error the two lists are
    disjoint, aligned with the errors and free of duplicates, and the repair only adds to
    what was valid. Each requested key is in exactly one of the lists whenever the first
    reply has errors; after a clean first reply, exactly when that reply covers the request.
   */
  lemma {:induction false} RepairAccounting(keys: seq<MessageKey>, first: string, repair: Option<string>,
                                            decode: string -> Option<Wrapper>, labels: seq<string>, maxAttempts: int)
    ensures var parsed := ParsedResponse(first, decode, labels);
            var o := ClassifyOutcome(keys, Some(first), repair, decode, labels, maxAttempts);
            && Accounted(keys, parsed, o)
            && ((forall k :: k in keys ==> AccountedOnce(k, o)) <==>
                (parsed.error.Some? || forall k :: k in keys ==> k in KeySet(parsed.classifications)))
  {
    hide ParsedResponse, Missing, Merged, Distinct, IsBlank, Accounted, WithFailed, Keys, KeySet;
    var parsed := ParsedResponse(first, decode, labels);
    var valid := parsed.classifications;
    var missing := Missing(keys, KeySet(valid));
    ParsedDistinct(first, decode, labels);
    MissingExact(keys, KeySet(valid));
    CleanAccounts(keys, parsed);
    if parsed.error == None || missing == [] {
    } else if !MayRepair(maxAttempts) {
      WithFailedAccounts(keys, parsed, valid, ParseFailed(parsed.error.value), ParseStage);
    } else if IsBlank(first) || repair == None {
      WithFailedAccounts(keys, parsed, valid, RepairUnavailable, RepairStage);
    } else {
      var repaired := ParsedResponse(repair.value, decode, labels);
      if repaired.error.Some? {
        WithFailedAccounts(keys, parsed, valid, RepairInvalid(repaired.error.value), RepairStage);
      } else {
        ParsedDistinct(repair.value, decode, labels);
        MergedExact(valid, repaired.classifications);
        WithFailedAccounts(keys, parsed, Merged(valid, repaired.classifications), NotRepaired, RepairStage);
      }
    }
  }

  // ---------------------------------------------------------------------------
  // What ends up valid
  // ---------------------------------------------------------------------------

  lemma {:induction false} MergedKeys(cs: seq<Classification>, more: seq<Classification>)
    ensures KeySet(Merged(cs, more)) == KeySet(cs) + KeySet(more)
    decreases |more|
  {
    if more != [] {
      var next := if more[0].key in KeySet(cs) then cs else cs + [more[0]];
      MergedKeys(next, more[1..]);
      assert more == [more[0]] + more[1..];
      assert KeySet(more) == {more[0].key} + KeySet(more[1..]);
      assert KeySet(next) == KeySet(cs) + {more[0].key};
    }
  }

  /** Whether a repair request is made and its answer parses cleanly. */
  predicate Repaired(keys: seq<MessageKey>, first: string, repair: Option<string>,
                     decode: string -> Option<Wrapper>, labels: seq<string>, maxAttempts: int) {
    && RepairSent(keys, first, decode, labels, maxAttempts)
    && repair.Some?
    && ParsedResponse(repair.value, decode, labels).error == None
  }

  /** The keys accepted from the two replies, requested or not. */
  function RepliedKeys(keys: seq<MessageKey>, first: Option<string>, repair: Option<string>,
                       decode: string -> Option<Wrapper>, labels: seq<string>, maxAttempts: int): set<MessageKey> {
    match first
    case None => {}
    case Some(raw) =>
      KeySet(ParsedResponse(raw, decode, labels).classifications)
      + if Repaired(keys, raw, repair, decode, labels, maxAttempts)
        then KeySet(ParsedResponse(repair.value, decode, labels).classifications) else {}
  }

  /** Valid is exactly what the replies deliver. */
  lemma {:induction false} ValidKeysExactly(keys: seq<MessageKey>, first: Option<string>, repair: Option<string>,
                                            decode: string -> Option<Wrapper>, labels: seq<string>, maxAttempts: int)
    ensures KeySet(ClassifyOutcome(keys, first, repair, decode, labels, maxAttempts).valid)
         == RepliedKeys(keys, first, repair, decode, labels, maxAttempts)
  {
    hide ParsedResponse, Missing, Merged, IsBlank, KeySet;
    assert KeySet([]) == {} by { NoKeys(); }
    if first.Some? && Repaired(keys, first.value, repair, decode, labels, maxAttempts) {
      MergedKeys(ParsedResponse(first.value, decode, labels).classifications,
                 ParsedResponse(repair.value, decode, labels).classifications);
    }
  }

  lemma NoKeys()
    ensures forall cs: seq<Classification> :: KeySet(cs) == {} <==> cs == []
  {
    forall cs: seq<Classification>
      ensures KeySet(cs) == {} <==> cs == []
    {
      if cs != [] { assert cs[0].key in KeySet(cs); }
    }
  }

  /** A reply without errors delivers something. */
  lemma {:induction false} CleanIsNotEmpty(raw: string, decode: string -> Option<Wrapper>, labels: seq<string>)
    ensures ParsedResponse(raw, decode, labels).error == None ==>
            ParsedResponse(raw, decode, labels).classifications != []
  {
    hide IsBlank, Accepted, AllErrors, ResponseText.SanitizeResponse, ResponseText.StripFences;
    var decoded := decode(ResponseText.SanitizeResponse(ResponseText.StripFences(raw)));
    if decoded.Some? { NoErrorsMeansAll(decoded.value.items, LabelSet(labels)); }
  }

  /**
    The hard error is exactly a provider error on the first request. Nothing valid remains
    exactly without an answer, or when the first one delivers nothing and no repair cleanly
    delivers more; the latter is no error of the function.
   */
  lemma {:induction false} NothingValidExactly(keys: seq<MessageKey>, first: Option<string>, repair: Option<string>,
                                               decode: string -> Option<Wrapper>, labels: seq<string>,
                                               maxAttempts: int)
    ensures var o := ClassifyOutcome(keys, first, repair, decode, labels, maxAttempts);
            && (o.hardError <==> first == None)
            && (o.valid == [] <==>
                  || first == None
                  || (ParsedResponse(first.value, decode, labels).classifications == []
                      && !Repaired(keys, first.value, repair, decode, labels, maxAttempts)))
  {
    hide ParsedResponse, Missing, Merged, IsBlank, KeySet, RepairSent;
    ValidKeysExactly(keys, first, repair, decode, labels, maxAttempts);
    NoKeys();
    if repair.Some? { CleanIsNotEmpty(repair.value, decode, labels); }
    HardErrorExactly(keys, first, repair, decode, labels, maxAttempts);
  }

  lemma {:induction false} HardErrorExactly(keys: seq<MessageKey>, first: Option<string>, repair: Option<string>,
                                            decode: string -> Option<Wrapper>, labels: seq<string>, maxAttempts: int)
    ensures ClassifyOutcome(keys, first, repair, decode, labels, maxAttempts).hardError <==> first == None
  {
    hide ParsedResponse, Missing, Merged, IsBlank, KeySet;
  }

  /** An input without any valid analysis and without an error: a blank reply. */
  lemma {:induction false} BlankReplyNoError(keys: seq<MessageKey>, blank: string, repair: Option<string>,
                                             decode: string -> Option<Wrapper>, labels: seq<string>, maxAttempts: int)
    requires IsBlank(blank)
    ensures var o := ClassifyOutcome(keys, Some(blank), repair, decode, labels, maxAttempts);
            o.valid == [] && !o.hardError
    ensures IsBlank("")
  {
    hide Missing, Merged;
    NothingValidExactly(keys, Some(blank), repair, decode, labels, maxAttempts);
  }
}
