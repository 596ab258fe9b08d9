/**
  What is accepted from a model's reply, why the rest is refused, and when a repair is
  asked for, said on the reply and its items without the predicates of the parser.
 */
module ReplyLaws {
  import opened Text
  import opened Decimal
  import opened Mail
  import opened ResponseParser
  import opened Classify
  import ResponseText

  type Decoder = string -> Option<Wrapper>

  /** A reply without code fences parses as its object, whatever commentary surrounds it. */
  lemma {:induction false} PlainReplyParses(pre: string, j: string, post: string, decode: Decoder,
                                            validLabels: seq<string>)
    requires ResponseText.IsObjectText(j) && '{' !in pre && '}' !in post
    requires Lacks(pre + (j + post), ResponseText.FENCE)
    ensures ParsedResponse(pre + (j + post), decode, validLabels) == FromDecoded(decode(j), validLabels)
  {
    hide FromDecoded, ResponseText.SanitizeResponse, ResponseText.StripFences, Trim, Lacks;
    ResponseText.PlainObject(pre, j, post);
    var pre' := ResponseText.TrimAround(pre, j, post);
    assert (pre' + (j + TrimRight(post)))[|pre'|] == j[0];
  }

  // ---------------------------------------------------------------------------
  // Items
  // ---------------------------------------------------------------------------

  /** The priority, or without one the urgency, where "normal" means "medium". */
  function FinalPriority(item: Item): string {
    var p, u := ToLower(Trim(item.priority)), ToLower(Trim(item.urgency));
    if p != "" then p else if u == "normal" then "medium" else u
  }

  predicate Acceptable(item: Item, validLabels: seq<string>) {
    && (item.category in validLabels || item.category == "Unknown")
    && 0.0 <= item.confidence <= 1.0
    && FinalPriority(item) in ["", "high", "medium", "low"]
    && Trim(item.summary) != ""
    && |item.keyPoints| > 0
    && forall p :: p in item.keyPoints ==> Trim(p) != ""
  }

  lemma {:induction false} PriorityExactly(item: Item)
    ensures ItemPriority(item) == FinalPriority(item)
  {
    hide Trim;
    assert |ToLower(Trim(item.urgency))| == |Trim(item.urgency)|;
  }

  lemma {:induction false} FieldsExactly(item: Item, validLabels: seq<string>)
    ensures GoodFields(item, LabelSet(validLabels)) <==> Acceptable(item, validLabels)
  {
    hide Trim, FinalPriority, ItemPriority;
    PriorityExactly(item);
    assert forall p :: p in item.keyPoints <==> exists j :: 0 <= j < |item.keyPoints| && item.keyPoints[j] == p;
  }

  /** Accepted are exactly the acceptable items that are the first of their key. */
  lemma {:induction false} AcceptedExactly(items: seq<Item>, validLabels: seq<string>, i: nat)
    ensures i in AcceptedIndices(items, LabelSet(validLabels), |items|) <==>
              i < |items| && Acceptable(items[i], validLabels)
              && forall j :: 0 <= j < i ==> items[j].account != items[i].account || items[j].uid != items[i].uid
  {
    hide GoodFields, Acceptable, LabelSet;
    AcceptedIndicesExact(items, LabelSet(validLabels), |items|);
    if i < |items| { FieldsExactly(items[i], validLabels); }
  }

  /** An accepted item is passed on whole, but for its priority. */
  lemma {:induction false} ResultRoundTrip(item: Item)
    ensures ItemOf(Result(item)) == item.(priority := FinalPriority(item))
    ensures Result(item).key.account == item.account && Result(item).key.uid == item.uid
    ensures Result(item).analysisError == None
  {
    hide ItemPriority, FinalPriority;
    PriorityExactly(item);
  }

  /** What a complaint about an item says. */
  predicate IsTrue(e: ItemError, items: seq<Item>, validLabels: seq<string>) {
    && e.index < |items|
    && var item := items[e.index];
       match e
       case DuplicateKey(i) => exists j :: 0 <= j < i && items[j].account == item.account && items[j].uid == item.uid
       case UnknownLabel(_) => item.category !in validLabels && item.category != "Unknown"
       case ConfidenceOutOfRange(_) => item.confidence < 0.0 || item.confidence > 1.0
       case InvalidPriority(_) => FinalPriority(item) !in ["", "high", "medium", "low"]
       case EmptySummary(_) => Trim(item.summary) == ""
       case NoKeyPoints(_) => item.keyPoints == []
       case EmptyKeyPoint(_, j) => j < |item.keyPoints| && Trim(item.keyPoints[j]) == ""
  }

  lemma {:induction false} KeyPointErrorsTrue(item: Item, i: nat, n: nat)
    requires n <= |item.keyPoints|
    ensures forall e :: e in KeyPointErrors(item, i, n) ==>
              e.EmptyKeyPoint? && e.index == i && e.point < |item.keyPoints| && Trim(item.keyPoints[e.point]) == ""
  {
    hide Trim;
    if n > 0 { KeyPointErrorsTrue(item, i, n - 1); }
  }

  lemma {:induction false} ItemErrorsTrue(items: seq<Item>, validLabels: seq<string>, i: nat)
    requires i < |items|
    ensures forall e :: e in ItemErrors(items, LabelSet(validLabels), i) ==> IsTrue(e, items, validLabels)
  {
    hide Trim, FinalPriority, ItemPriority, KeyPointErrors;
    PriorityExactly(items[i]);
    KeyPointErrorsTrue(items[i], i, |items[i].keyPoints|);
  }

  /** Every complaint names the item it is about and is true of it. */
  lemma {:induction false} ErrorsTrue(items: seq<Item>, validLabels: seq<string>, n: nat)
    requires n <= |items|
    ensures forall e :: e in ErrorsUpTo(items, LabelSet(validLabels), n) ==> IsTrue(e, items, validLabels)
  {
    hide IsTrue, ItemErrors, LabelSet;
    if n > 0 {
      ErrorsTrue(items, validLabels, n - 1);
      ItemErrorsTrue(items, validLabels, n - 1);
    }
  }

  // ---------------------------------------------------------------------------
  // Whole replies
  // ---------------------------------------------------------------------------

  /** Which replies are refused whole, and that they deliver nothing. */
  lemma {:induction false} RefusedExactly(raw: string, decode: Decoder, validLabels: seq<string>)
    ensures var p := ParsedResponse(raw, decode, validLabels);
            var decoded := decode(ResponseText.SanitizeResponse(ResponseText.StripFences(raw)));
            && (p.error == Some(EmptyResponse) <==> Trim(raw) == "")
            && (p.error == Some(InvalidJson) <==> Trim(raw) != "" && decoded == None)
            && (p.error == Some(EmptyClassifications) <==>
                  && Trim(raw) != "" && decoded.Some?
                  && 0 <= decoded.value.schemaVersion <= 1 && decoded.value.items == [])
            && (forall v :: p.error == Some(NegativeSchemaVersion(v)) <==>
                  Trim(raw) != "" && decoded.Some? && v == decoded.value.schemaVersion < 0)
            && (forall v :: p.error == Some(UnsupportedSchemaVersion(v)) <==>
                  Trim(raw) != "" && decoded.Some? && v == decoded.value.schemaVersion > 1)
            && (p.error.Some? && !p.error.value.InvalidItems? ==> p.classifications == [])
  {
    hide Trim, Accepted, AllErrors, ResponseText.SanitizeResponse, ResponseText.StripFences;
  }

  /** The version is that of the reply if some item is accepted, and 0 otherwise. */
  lemma {:induction false} VersionExactly(raw: string, decode: Decoder, validLabels: seq<string>)
    ensures var p := ParsedResponse(raw, decode, validLabels);
            var decoded := decode(ResponseText.SanitizeResponse(ResponseText.StripFences(raw)));
            && (p.classifications == [] ==> p.schemaVersion == 0)
            && (p.classifications != [] ==> decoded.Some? && p.schemaVersion == decoded.value.schemaVersion)
  {
    hide Trim, Accepted, AllErrors, ResponseText.SanitizeResponse, ResponseText.StripFences;
    var decoded := decode(ResponseText.SanitizeResponse(ResponseText.StripFences(raw)));
    if decoded.Some? && decoded.value.items != [] { NoErrorsMeansAll(decoded.value.items, LabelSet(validLabels)); }
  }

  /** A reply is clean exactly when all its items are acceptable and of different keys. */
  lemma {:induction false} CleanExactly(raw: string, decode: Decoder, validLabels: seq<string>)
    ensures ParsedResponse(raw, decode, validLabels).error == None <==>
            && Trim(raw) != ""
            && var decoded := decode(ResponseText.SanitizeResponse(ResponseText.StripFences(raw)));
               && decoded.Some? && 0 <= decoded.value.schemaVersion <= 1 && decoded.value.items != []
               && AllAcceptable(decoded.value.items, validLabels)
  {
    hide Trim, Accepted, AllErrors, AllAcceptable, ResponseText.SanitizeResponse, ResponseText.StripFences;
    var decoded := decode(ResponseText.SanitizeResponse(ResponseText.StripFences(raw)));
    if decoded.Some? { NoErrorsExactly(decoded.value.items, validLabels); }
  }

  ghost predicate AllAcceptable(items: seq<Item>, validLabels: seq<string>) {
    && (forall i :: 0 <= i < |items| ==> Acceptable(items[i], validLabels))
    && forall i, j :: 0 <= j < i < |items| ==> items[j].account != items[i].account || items[j].uid != items[i].uid
  }

  lemma {:induction false} AcceptedHere(items: seq<Item>, validLabels: seq<string>, i: nat)
    requires i < |items|
    ensures IsAccepted(items, LabelSet(validLabels), i) <==>
            Acceptable(items[i], validLabels)
            && forall j :: 0 <= j < i ==> items[j].account != items[i].account || items[j].uid != items[i].uid
  {
    hide GoodFields, Acceptable, LabelSet;
    FieldsExactly(items[i], validLabels);
  }

  lemma {:induction false} NoErrorsExactly(items: seq<Item>, validLabels: seq<string>)
    ensures AllErrors(items, LabelSet(validLabels)) == [] <==> AllAcceptable(items, validLabels)
  {
    hide IsAccepted, Acceptable, LabelSet, ErrorsUpTo;
    NoErrors(items, LabelSet(validLabels), |items|);
    forall i | 0 <= i < |items|
      ensures IsAccepted(items, LabelSet(validLabels), i) <==>
              Acceptable(items[i], validLabels)
              && forall j :: 0 <= j < i ==> items[j].account != items[i].account || items[j].uid != items[i].uid
    {
      AcceptedHere(items, validLabels, i);
    }
    if AllErrors(items, LabelSet(validLabels)) == [] {
      assert forall i :: 0 <= i < |items| ==> IsAccepted(items, LabelSet(validLabels), i);
    }
  }

  // ---------------------------------------------------------------------------
  // Repair
  // ---------------------------------------------------------------------------

  /** A repair is asked for unless it is switched off, the reply is blank, clean, or covers the request. */
  lemma {:induction false} RepairExactly(keys: seq<MessageKey>, first: string, decode: Decoder, labels: seq<string>,
                                         maxAttempts: int)
    ensures var p := ParsedResponse(first, decode, labels);
            RepairSent(keys, first, decode, labels, maxAttempts) <==>
              && p.error.Some? && maxAttempts != 0 && Trim(first) != ""
              && exists k :: k in keys && k !in KeySet(p.classifications)
  {
    hide ParsedResponse, Missing, Trim;
    var p := ParsedResponse(first, decode, labels);
    MissingExact(keys, KeySet(p.classifications));
    var m := Missing(keys, KeySet(p.classifications));
    assert m != [] ==> m[0] in m;
  }

  /** Why a message failed: all in one reply fail for the same reason. */
  function Reason(first: string, repair: Option<string>, decode: Decoder, labels: seq<string>, maxAttempts: int)
      : (Failure, Stage)
  {
    var p := ParsedResponse(first, decode, labels);
    if maxAttempts == 0 && p.error.Some? then (ParseFailed(p.error.value), ParseStage)
    else if Trim(first) == "" || repair == None then (RepairUnavailable, RepairStage)
    else
      match ParsedResponse(repair.value, decode, labels).error
      case Some(e) => (RepairInvalid(e), RepairStage)
      case None => (NotRepaired, RepairStage)
  }

  lemma {:induction false} FailuresExactly(keys: seq<MessageKey>, first: string, repair: Option<string>,
                                           decode: Decoder, labels: seq<string>, maxAttempts: int)
    ensures var o := ClassifyOutcome(keys, Some(first), repair, decode, labels, maxAttempts);
            var reason := Reason(first, repair, decode, labels, maxAttempts);
            && (forall e :: e in o.errors ==> e.error == reason.0 && e.stage == reason.1)
            && (forall c :: c in o.failed ==>
                  && c.category == "Unknown" && c.confidence == 0.0 && c.priority == "" && c.urgency == ""
                  && c.reason == "" && c.summary == "" && c.keyPoints == [] && c.actionItems == [])
  {
    hide ParsedResponse, Missing, Merged, Trim, KeySet;
  }
}
