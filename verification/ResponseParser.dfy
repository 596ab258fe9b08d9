/**
  `ParseResponse`: the item loop after JSON decoding, and the whole parser with JSON
  decoding as a parameter.
 */
module ResponseParser {
  import opened Text
  import opened Decimal
  import opened Mail
  import ResponseText

  const CURRENT_SCHEMA_VERSION := 1

  /** One item of the decoded reply. */
  datatype Item = Item(
    uid: uint32, account: string, category: string, confidence: real, reason: string, summary: string,
    keyPoints: seq<string>, actionItems: seq<string>, priority: string, urgency: string)
  {
    function Key(): MessageKey { MessageKey(account, uid) }
  }

  datatype Wrapper = Wrapper(schemaVersion: int, items: seq<Item>)

  // ---------------------------------------------------------------------------
  // Which items are accepted, and as what
  // ---------------------------------------------------------------------------

  predicate IsBlank(s: string) {
    Trim(s) == ""
  }

  function NormalizePriority(p: string): string {
    ToLower(Trim(p))
  }

  function NormalizeLegacyUrgency(u: string): string {
    if NormalizePriority(u) == "normal" then "medium" else NormalizePriority(u)
  }

  predicate IsPriority(p: string) {
    p == "high" || p == "medium" || p == "low"
  }

  function ItemPriority(item: Item): string {
    var p := NormalizePriority(item.priority);
    if p == "" && !IsBlank(item.urgency) then NormalizeLegacyUrgency(item.urgency) else p
  }

  predicate GoodFields(item: Item, labels: set<string>) {
    && item.category in labels
    && 0.0 <= item.confidence <= 1.0
    && (ItemPriority(item) == "" || IsPriority(ItemPriority(item)))
    && !IsBlank(item.summary)
    && item.keyPoints != []
    && (forall j :: 0 <= j < |item.keyPoints| ==> !IsBlank(item.keyPoints[j]))
  }

  /** No earlier item has this key, be it a valid item or not. */
  predicate IsFirstHolder(items: seq<Item>, i: nat)
    requires i < |items|
  {
    forall j :: 0 <= j < i ==> items[j].Key() != items[i].Key()
  }

  predicate IsAccepted(items: seq<Item>, labels: set<string>, i: nat)
    requires i < |items|
  {
    IsFirstHolder(items, i) && GoodFields(items[i], labels)
  }

  function Result(item: Item): Classification {
    Classification(item.Key(), item.category, item.confidence, item.reason, item.summary,
                   item.keyPoints, item.actionItems, ItemPriority(item), item.urgency, None)
  }

  /** The positions of the accepted items among the first `n`, in order. */
  function AcceptedIndices(items: seq<Item>, labels: set<string>, n: nat): (r: seq<nat>)
    requires n <= |items|
    ensures forall a :: 0 <= a < |r| ==> r[a] < n
  {
    if n == 0 then []
    else
      AcceptedIndices(items, labels, n - 1) + (if IsAccepted(items, labels, n - 1) then [n - 1] else [])
  }

  function Results(items: seq<Item>, indices: seq<nat>): (r: seq<Classification>)
    requires forall a :: 0 <= a < |indices| ==> indices[a] < |items|
    ensures |r| == |indices| && forall a :: 0 <= a < |r| ==> r[a] == Result(items[indices[a]])
  {
    seq(|indices|, a requires 0 <= a < |indices| => Result(items[indices[a]]))
  }

  /** Exactly the accepted positions, in increasing order. */
  lemma {:induction false} AcceptedIndicesExact(items: seq<Item>, labels: set<string>, n: nat)
    requires n <= |items|
    ensures var r := AcceptedIndices(items, labels, n);
            && (forall a, b :: 0 <= a < b < |r| ==> r[a] < r[b])
            && (forall i :: i in r <==> 0 <= i < n && IsAccepted(items, labels, i))
  {
    hide IsAccepted;
    if n > 0 {
      AcceptedIndicesExact(items, labels, n - 1);
      var r := AcceptedIndices(items, labels, n - 1);
      if IsAccepted(items, labels, n - 1) {
        assert forall i :: i in r + [n - 1] <==> i in r || i == n - 1;
      }
    }
  }

  /** What the parser accepts. */
  function Accepted(items: seq<Item>, labels: set<string>): seq<Classification> {
    Results(items, AcceptedIndices(items, labels, |items|))
  }

  // ---------------------------------------------------------------------------
  // Errors
  // ---------------------------------------------------------------------------

  function KeyPointErrors(item: Item, i: nat, n: nat): seq<ItemError>
    requires n <= |item.keyPoints|
  {
    if n == 0 then []
    else KeyPointErrors(item, i, n - 1) + (if IsBlank(item.keyPoints[n - 1]) then [EmptyKeyPoint(i, n - 1)] else [])
  }

  lemma {:induction false} NoKeyPointErrors(item: Item, i: nat, n: nat)
    requires n <= |item.keyPoints|
    ensures KeyPointErrors(item, i, n) == [] <==> forall j :: 0 <= j < n ==> !IsBlank(item.keyPoints[j])
  {
    hide IsBlank;
    if n > 0 { NoKeyPointErrors(item, i, n - 1); }
  }

  /** The first check that fails, except that every blank key point is reported. */
  function FieldErrors(item: Item, labels: set<string>, i: nat): seq<ItemError> {
    var p := ItemPriority(item);
    if item.category !in labels then [UnknownLabel(i)]
    else if item.confidence < 0.0 || item.confidence > 1.0 then [ConfidenceOutOfRange(i)]
    else if p != "" && !IsPriority(p) then [InvalidPriority(i)]
    else if IsBlank(item.summary) then [EmptySummary(i)]
    else if item.keyPoints == [] then [NoKeyPoints(i)]
    else KeyPointErrors(item, i, |item.keyPoints|)
  }

  /** The checks complain exactly about the items that are not good. */
  lemma {:induction false} NoFieldErrors(item: Item, labels: set<string>, i: nat)
    ensures FieldErrors(item, labels, i) == [] <==> GoodFields(item, labels)
  {
    hide IsBlank, ItemPriority, IsPriority;
    NoKeyPointErrors(item, i, |item.keyPoints|);
  }

  function ItemErrors(items: seq<Item>, labels: set<string>, i: nat): seq<ItemError>
    requires i < |items|
  {
    if IsFirstHolder(items, i) then FieldErrors(items[i], labels, i) else [DuplicateKey(i)]
  }

  function ErrorsUpTo(items: seq<Item>, labels: set<string>, n: nat): seq<ItemError>
    requires n <= |items|
  {
    if n == 0 then [] else ErrorsUpTo(items, labels, n - 1) + ItemErrors(items, labels, n - 1)
  }

  /** Everything the parser complains about. */
  function AllErrors(items: seq<Item>, labels: set<string>): seq<ItemError> {
    ErrorsUpTo(items, labels, |items|)
  }

  lemma {:induction false} NoErrors(items: seq<Item>, labels: set<string>, n: nat)
    requires n <= |items|
    ensures ErrorsUpTo(items, labels, n) == [] <==> forall i :: 0 <= i < n ==> IsAccepted(items, labels, i)
  {
    hide FieldErrors, GoodFields, IsFirstHolder;
    if n > 0 {
      NoErrors(items, labels, n - 1);
      NoFieldErrors(items[n - 1], labels, n - 1);
      assert ItemErrors(items, labels, n - 1) == [] <==> IsAccepted(items, labels, n - 1);
    }
  }

  /** A first holder with a good field everywhere but two blank key points. */
  predicate HasBlankKeyPoints(items: seq<Item>, labels: set<string>, i: nat)
    requires i < |items|
  {
    var item := items[i];
    && IsFirstHolder(items, i)
    && item.category in labels
    && 0.0 <= item.confidence <= 1.0
    && (ItemPriority(item) == "" || IsPriority(ItemPriority(item)))
    && !IsBlank(item.summary)
    && TwoBlank(item, |item.keyPoints|)
  }

  predicate TwoBlank(item: Item, n: nat)
    requires n <= |item.keyPoints|
  {
    exists a, b :: 0 <= a < b < n && IsBlank(item.keyPoints[a]) && IsBlank(item.keyPoints[b])
  }

  lemma {:induction false} KeyPointErrorCount(item: Item, i: nat, n: nat)
    requires n <= |item.keyPoints|
    ensures |KeyPointErrors(item, i, n)| > 1 <==> TwoBlank(item, n)
  {
    hide IsBlank;
    if n > 0 {
      KeyPointErrorCount(item, i, n - 1);
      NoKeyPointErrors(item, i, n - 1);
    }
  }

  lemma {:induction false} ItemErrorCount(items: seq<Item>, labels: set<string>, i: nat)
    requires i < |items|
    ensures |ItemErrors(items, labels, i)| >= (if IsAccepted(items, labels, i) then 0 else 1)
    ensures |ItemErrors(items, labels, i)| == (if IsAccepted(items, labels, i) then 0 else 1) <==>
            !HasBlankKeyPoints(items, labels, i)
  {
    hide IsBlank, ItemPriority, IsPriority, TwoBlank, IsFirstHolder, KeyPointErrors;
    NoFieldErrors(items[i], labels, i);
    KeyPointErrorCount(items[i], i, |items[i].keyPoints|);
    BlankMeansBad(items[i], labels);
  }

  lemma {:induction false} BlankMeansBad(item: Item, labels: set<string>)
    ensures TwoBlank(item, |item.keyPoints|) ==> !GoodFields(item, labels) && item.keyPoints != []
  {
    hide IsBlank, ItemPriority, IsPriority;
  }

  /**
    Every refused item has an error, and errors and results together are as many as the
    items exactly when no first holder that passes the earlier checks has two blank key
    points: each blank key point is reported.
   */
  lemma {:induction false} ErrorCount(items: seq<Item>, labels: set<string>, n: nat)
    requires n <= |items|
    ensures |ErrorsUpTo(items, labels, n)| + |AcceptedIndices(items, labels, n)| >= n
    ensures |ErrorsUpTo(items, labels, n)| + |AcceptedIndices(items, labels, n)| == n <==>
            forall i :: 0 <= i < n ==> !HasBlankKeyPoints(items, labels, i)
  {
    hide IsAccepted, ItemErrors, HasBlankKeyPoints;
    if n > 0 {
      ErrorCount(items, labels, n - 1);
      ItemErrorCount(items, labels, n - 1);
    }
  }

  // ---------------------------------------------------------------------------
  // The loops of the program
  // ---------------------------------------------------------------------------

  method CheckKeyPoints(item: Item, i: nat) returns (errs: seq<ItemError>)
    ensures errs == KeyPointErrors(item, i, |item.keyPoints|)
  {
    hide IsBlank;
    errs := [];
    for j := 0 to |item.keyPoints|
      invariant errs == KeyPointErrors(item, i, j)
    {
      if IsBlank(item.keyPoints[j]) { errs := errs + [EmptyKeyPoint(i, j)]; }
    }
  }

  /** One round of the loop for an item whose key is new. */
  method CheckItem(item: Item, labels: set<string>, i: nat)
      returns (result: Option<Classification>, errs: seq<ItemError>)
    ensures result == if GoodFields(item, labels) then Some(Result(item)) else None
    ensures errs == FieldErrors(item, labels, i)
  {
    hide NormalizePriority, NormalizeLegacyUrgency, IsBlank, IsPriority;
    result, errs := None, [];
    if item.category !in labels { return None, [UnknownLabel(i)]; }
    if item.confidence < 0.0 || item.confidence > 1.0 { return None, [ConfidenceOutOfRange(i)]; }
    var priority := NormalizePriority(item.priority);
    if priority == "" && !IsBlank(item.urgency) { priority := NormalizeLegacyUrgency(item.urgency); }
    if priority != "" && !IsPriority(priority) { return None, [InvalidPriority(i)]; }
    if IsBlank(item.summary) { return None, [EmptySummary(i)]; }
    if item.keyPoints == [] { return None, [NoKeyPoints(i)]; }
    NoKeyPointErrors(item, i, |item.keyPoints|);
    errs := CheckKeyPoints(item, i);
    if errs == [] {
      result := Some(Classification(item.Key(), item.category, item.confidence, item.reason, item.summary,
                                    item.keyPoints, item.actionItems, priority, item.urgency, None));
    }
  }

  /** `Unknown` is always a valid label. */
  function LabelSet(validLabels: seq<string>): set<string> {
    (set l | l in validLabels) + {"Unknown"}
  }

  /** The item loop: `seen` remembers every key, of valid and of refused items alike. */
  method ParseItems(items: seq<Item>, validLabels: seq<string>)
      returns (results: seq<Classification>, errs: seq<ItemError>)
    ensures results == Accepted(items, LabelSet(validLabels))
    ensures errs == AllErrors(items, LabelSet(validLabels))
  {
    hide GoodFields, FieldErrors, Result;
    var labels := {};
    for k := 0 to |validLabels|
      invariant labels == set l | l in validLabels[..k]
    {
      labels := labels + {validLabels[k]};
    }
    assert validLabels[..|validLabels|] == validLabels;
    labels := labels + {"Unknown"};
    var seen: set<MessageKey> := {};
    results, errs := [], [];
    for i := 0 to |items|
      invariant forall k :: k in seen <==> exists j :: 0 <= j < i && items[j].Key() == k
      invariant results == Results(items, AcceptedIndices(items, labels, i))
      invariant errs == ErrorsUpTo(items, labels, i)
    {
      var item := items[i];
      assert item.Key() in seen <==> !IsFirstHolder(items, i);
      if item.Key() in seen {
        errs := errs + [DuplicateKey(i)];
      } else {
        seen := seen + {item.Key()};
        assert IsAccepted(items, labels, i) <==> GoodFields(item, labels);
        var result, itemErrs := CheckItem(item, labels, i);
        errs := errs + itemErrs;
        if result.Some? { results := results + [result.value]; }
      }
    }
  }

  // ---------------------------------------------------------------------------
  // The parser
  // ---------------------------------------------------------------------------

  /** What `ParseResponse` returns; partial results can come with an error. */
  datatype Parsed = Parsed(classifications: seq<Classification>, schemaVersion: int, error: Option<ParseError>)

  function Failed(e: ParseError): Parsed {
    Parsed([], 0, Some(e))
  }

  function FromDecoded(decoded: Option<Wrapper>, validLabels: seq<string>): Parsed {
    match decoded
    case None => Failed(InvalidJson)
    case Some(w) =>
      if w.schemaVersion < 0 then Failed(NegativeSchemaVersion(w.schemaVersion))
      else if w.schemaVersion > CURRENT_SCHEMA_VERSION then Failed(UnsupportedSchemaVersion(w.schemaVersion))
      else if w.items == [] then Failed(EmptyClassifications)
      else
        var labels := LabelSet(validLabels);
        var results, errs := Accepted(w.items, labels), AllErrors(w.items, labels);
        if errs != [] then
          Parsed(results, if results != [] then w.schemaVersion else 0, Some(InvalidItems(errs)))
        else Parsed(results, w.schemaVersion, None)
  }

  /** The parser, given what JSON decoding makes of a text. */
  function ParsedResponse(raw: string, decode: string -> Option<Wrapper>, validLabels: seq<string>): Parsed {
    if IsBlank(raw) then Failed(EmptyResponse)
    else FromDecoded(decode(ResponseText.SanitizeResponse(ResponseText.StripFences(raw))), validLabels)
  }

  method ParseResponse(raw: string, decode: string -> Option<Wrapper>, validLabels: seq<string>)
      returns (parsed: Parsed)
    ensures parsed == ParsedResponse(raw, decode, validLabels)
  {
    hide Accepted, AllErrors, IsBlank;
    if IsBlank(raw) { return Failed(EmptyResponse); }
    var cleaned := ResponseText.SanitizeResponse(ResponseText.StripFences(raw));
    var decoded := decode(cleaned);
    match decoded
    case None => return Failed(InvalidJson);
    case Some(w) =>
      if w.schemaVersion < 0 { return Failed(NegativeSchemaVersion(w.schemaVersion)); }
      if w.schemaVersion > CURRENT_SCHEMA_VERSION { return Failed(UnsupportedSchemaVersion(w.schemaVersion)); }
      if w.items == [] { return Failed(EmptyClassifications); }
      var results, errs := ParseItems(w.items, validLabels);
      if errs != [] {
        if results != [] { return Parsed(results, w.schemaVersion, Some(InvalidItems(errs))); }
        return Failed(InvalidItems(errs));
      }
      return Parsed(results, w.schemaVersion, None);
  }

  // ---------------------------------------------------------------------------
  // Properties
  // ---------------------------------------------------------------------------

  /** The parser reports no item error exactly when every item is accepted, and then in full. */
  lemma {:induction false} NoErrorsMeansAll(items: seq<Item>, labels: set<string>)
    ensures AllErrors(items, labels) == [] <==> |Accepted(items, labels)| == |items|
    ensures AllErrors(items, labels) == [] ==>
            forall i :: 0 <= i < |items| ==> Accepted(items, labels)[i] == Result(items[i])
  {
    hide IsAccepted, Result;
    NoErrors(items, labels, |items|);
    IndicesOfAll(items, labels, |items|);
  }

  lemma {:induction false} IndicesOfAll(items: seq<Item>, labels: set<string>, n: nat)
    requires n <= |items|
    ensures |AcceptedIndices(items, labels, n)| <= n
    ensures |AcceptedIndices(items, labels, n)| == n <==> forall i :: 0 <= i < n ==> IsAccepted(items, labels, i)
    ensures |AcceptedIndices(items, labels, n)| == n ==>
            forall i :: 0 <= i < n ==> AcceptedIndices(items, labels, n)[i] == i
  {
    hide IsAccepted;
    if n > 0 { IndicesOfAll(items, labels, n - 1); }
  }

  /** Accepted keys are pairwise distinct. */
  lemma {:induction false} AcceptedDistinct(items: seq<Item>, labels: set<string>)
    ensures Distinct(Keys(Accepted(items, labels)))
  {
    hide GoodFields;
    AcceptedIndicesExact(items, labels, |items|);
    var idx := AcceptedIndices(items, labels, |items|);
    var ks := Keys(Accepted(items, labels));
    forall a, b | 0 <= a < b < |ks|
      ensures ks[a] != ks[b]
    {
      assert idx[b] in idx && IsFirstHolder(items, idx[b]);
      assert items[idx[a]].Key() != items[idx[b]].Key();
    }
  }

  /** Every parse result, with or without an error, has pairwise distinct keys. */
  lemma {:induction false} ParsedDistinct(raw: string, decode: string -> Option<Wrapper>, validLabels: seq<string>)
    ensures Distinct(Keys(ParsedResponse(raw, decode, validLabels).classifications))
    ensures forall c :: c in ParsedResponse(raw, decode, validLabels).classifications ==> c.analysisError == None
  {
    hide Accepted, AllErrors, IsBlank;
    var parsed := ParsedResponse(raw, decode, validLabels);
    var decoded := decode(ResponseText.SanitizeResponse(ResponseText.StripFences(raw)));
    if !IsBlank(raw) && decoded.Some? {
      AcceptedDistinct(decoded.value.items, LabelSet(validLabels));
      AcceptedHasNoError(decoded.value.items, LabelSet(validLabels));
    }
  }

  lemma {:induction false} AcceptedHasNoError(items: seq<Item>, labels: set<string>)
    ensures forall c :: c in Accepted(items, labels) ==> c.analysisError == None
  {
  }

  /** A reply in code fences parses as its JSON object, whatever commentary surrounds it. */
  lemma {:induction false} FencedReplyParses(lead: string, lang: string, w: string, j: string, w': string,
                                             tail: string, decode: string -> Option<Wrapper>,
                                             validLabels: seq<string>)
    requires lang == "" || lang == "json"
    requires AllSpace(lead) && AllSpace(w) && AllSpace(w')
    requires ResponseText.IsObjectText(j) && Lacks(tail, ResponseText.FENCE)
    ensures ParsedResponse(lead + (ResponseText.FENCE + lang + (w + (j + (w' + (ResponseText.FENCE + tail))))),
                           decode, validLabels)
         == FromDecoded(decode(j), validLabels)
  {
    hide FromDecoded, ResponseText.SanitizeResponse, ResponseText.StripFences, Trim;
    var rest := w + (j + (w' + (ResponseText.FENCE + tail)));
    var raw := lead + (ResponseText.FENCE + lang + rest);
    ResponseText.FencedObject(lead, lang, w, j, w', tail);
    assert raw[|lead|] == '`';
    var a, b := TrimSplit(raw);
    assert Trim(raw) == "" ==> raw == a + b;
    assert !IsSpace('`');
  }

  // ---------------------------------------------------------------------------
  // Accepted results are stable
  // ---------------------------------------------------------------------------

  /** The item that would be decoded from an accepted result. */
  function ItemOf(c: Classification): Item {
    Item(c.key.uid, c.key.account, c.category, c.confidence, c.reason, c.summary,
         c.keyPoints, c.actionItems, c.priority, c.urgency)
  }

  function ItemsOf(cs: seq<Classification>): (r: seq<Item>)
    ensures |r| == |cs| && forall i :: 0 <= i < |r| ==> r[i] == ItemOf(cs[i])
  {
    seq(|cs|, i requires 0 <= i < |cs| => ItemOf(cs[i]))
  }

  lemma {:induction false} PriorityIsNormal(p: string)
    requires p == "" || IsPriority(p)
    ensures NormalizePriority(p) == p
  {
    TrimFixed(p);
    assert ToLower(p) == p;
  }

  /** Only a blank priority and a blank urgency make an empty priority. */
  lemma {:induction false} EmptyPriorityMeansBlank(item: Item)
    ensures ItemPriority(item) == "" <==> IsBlank(item.priority) && IsBlank(item.urgency)
  {
    hide Trim;
    assert |NormalizePriority(item.priority)| == |Trim(item.priority)|;
    assert |NormalizePriority(item.urgency)| == |Trim(item.urgency)|;
  }

  lemma {:induction false} PriorityStable(item: Item)
    requires ItemPriority(item) == "" || IsPriority(ItemPriority(item))
    ensures ItemPriority(ItemOf(Result(item))) == ItemPriority(item)
  {
    hide NormalizeLegacyUrgency, NormalizePriority, IsBlank, IsPriority, ItemPriority;
    PriorityIsNormal(ItemPriority(item));
    EmptyPriorityMeansBlank(item);
    NormalPriorityKept(ItemOf(Result(item)));
  }

  lemma {:induction false} NormalPriorityKept(item: Item)
    requires NormalizePriority(item.priority) == item.priority
    requires item.priority != "" || IsBlank(item.urgency)
    ensures ItemPriority(item) == item.priority
  {
  }

  /** Parsing accepted results again accepts them all, unchanged, normalised priorities included. */
  lemma {:induction false} AcceptedIsFixpoint(items: seq<Item>, labels: set<string>)
    ensures var cs := Accepted(items, labels);
            && Accepted(ItemsOf(cs), labels) == cs
            && AllErrors(ItemsOf(cs), labels) == []
  {
    hide GoodFields, Result, ItemOf;
    var cs := Accepted(items, labels);
    var idx := AcceptedIndices(items, labels, |items|);
    var again := ItemsOf(cs);
    AcceptedIndicesExact(items, labels, |items|);
    AcceptedDistinct(items, labels);
    forall i | 0 <= i < |again|
      ensures IsAccepted(again, labels, i) && Result(again[i]) == cs[i]
    {
      assert idx[i] in idx;
      ResultStable(items[idx[i]], labels);
      KeysOfItems(cs, i);
    }
    NoErrors(again, labels, |again|);
    NoErrorsMeansAll(again, labels);
  }

  lemma {:induction false} ResultStable(item: Item, labels: set<string>)
    requires GoodFields(item, labels)
    ensures GoodFields(ItemOf(Result(item)), labels)
    ensures Result(ItemOf(Result(item))) == Result(item)
  {
    hide ItemPriority, IsBlank, IsPriority;
    PriorityStable(item);
  }

  lemma {:induction false} KeysOfItems(cs: seq<Classification>, i: nat)
    requires i < |cs| && Distinct(Keys(cs))
    ensures IsFirstHolder(ItemsOf(cs), i)
  {
    forall j | 0 <= j < i
      ensures ItemsOf(cs)[j].Key() != ItemsOf(cs)[i].Key()
    {
      assert Keys(cs)[j] != Keys(cs)[i];
    }
  }

  // ---------------------------------------------------------------------------
  // ValidateResponse
  // ---------------------------------------------------------------------------

  predicate ValidEntry(c: Classification) {
    c.category != "" && 0.0 <= c.confidence <= 1.0
  }

  predicate ValidBatch(cs: seq<Classification>, expectedCount: int) {
    && cs != []
    && (expectedCount > 0 ==> |cs| == expectedCount)
    && forall i :: 0 <= i < |cs| ==> ValidEntry(cs[i])
  }

  method ValidateResponse(cs: seq<Classification>, expectedCount: int) returns (ok: bool)
    ensures ok == ValidBatch(cs, expectedCount)
  {
    if |cs| == 0 { return false; }
    if expectedCount > 0 && |cs| != expectedCount { return false; }
    ok := true;
    for i := 0 to |cs|
      invariant ok <==> forall k :: 0 <= k < i ==> ValidEntry(cs[k])
    {
      if cs[i].category == "" { ok := false; }
      if cs[i].confidence < 0.0 || cs[i].confidence > 1.0 { ok := false; }
    }
  }

  /** What the parser accepts passes the extra validation, unless it took an empty label. */
  lemma {:induction false} AcceptedIsValid(items: seq<Item>, validLabels: seq<string>)
    requires Accepted(items, LabelSet(validLabels)) != []
    ensures var cs := Accepted(items, LabelSet(validLabels));
            ValidBatch(cs, |cs|) <==> forall i :: 0 <= i < |cs| ==> cs[i].category != ""
    ensures "" !in validLabels ==>
            ValidBatch(Accepted(items, LabelSet(validLabels)), |Accepted(items, LabelSet(validLabels))|)
  {
    hide IsBlank, ItemPriority;
    var labels := LabelSet(validLabels);
    var cs := Accepted(items, labels);
    var idx := AcceptedIndices(items, labels, |items|);
    AcceptedIndicesExact(items, labels, |items|);
    forall i | 0 <= i < |cs|
      ensures 0.0 <= cs[i].confidence <= 1.0 && cs[i].category in labels
    {
      assert idx[i] in idx && GoodFields(items[idx[i]], labels);
    }
  }
}
