/**
  `buildDigestDataPartial`: every message gets exactly one entry, and the numbers of a
  digest add up.
 */
module DigestData {
  import opened Text
  import opened Decimal
  import opened Mail
  import opened Counting
  import opened Classify
  import opened DigestStats
  import Selection
  import FetchPool
  import ResponseParser

  datatype Digest = Digest(
    messages: seq<Selection.Entry>, totalFetched: nat, totalClassified: nat, failedCount: nat,
    analysisFailedCount: nat, globalStats: GlobalStats, accountStats: seq<AccountStats>)

  // ---------------------------------------------------------------------------
  // The classification of each message
  // ---------------------------------------------------------------------------

  /** The failed classifications with their errors attached, position by position. */
  function WithErrors(failed: seq<Classification>, errors: seq<AnalysisError>): (r: seq<Classification>)
    ensures |r| == |failed|
    ensures forall i :: 0 <= i < |r| ==> r[i] == failed[i].(analysisError := r[i].analysisError)
    ensures forall i :: 0 <= i < |r| && i < |errors| ==> r[i].analysisError == Some(errors[i])
  {
    seq(|failed|, i requires 0 <= i < |failed| =>
      failed[i].(analysisError :=
        Some(if i < |errors| then errors[i] else AnalysisError(failed[i].key, Unspecified, UnknownStage))))
  }

  /** The map `m` with the classifications of `cs` written over it, in order. */
  function Overridden(m: map<MessageKey, Classification>, cs: seq<Classification>): map<MessageKey, Classification> {
    if cs == [] then m
    else Overridden(m, cs[..|cs| - 1])[cs[|cs| - 1].key := cs[|cs| - 1]]
  }

  function ClassMap(valid: seq<Classification>, failed: seq<Classification>, errors: seq<AnalysisError>)
      : map<MessageKey, Classification>
  {
    Overridden(Overridden(map[], valid), WithErrors(failed, errors))
  }

  function ClassOf(k: MessageKey, classes: map<MessageKey, Classification>): Classification {
    if k in classes then classes[k] else FailedClassification(k)
  }

  function EntryOf(m: Message, classes: map<MessageKey, Classification>): Selection.Entry {
    Selection.Entry(m.subject, m.from, m.date, m.isRead, ClassOf(m.Key(), classes), m.body)
  }

  function Entries(ms: seq<Message>, classes: map<MessageKey, Classification>): (r: seq<Selection.Entry>)
    ensures |r| == |ms| && forall i :: 0 <= i < |r| ==> r[i] == EntryOf(ms[i], classes)
  {
    seq(|ms|, i requires 0 <= i < |ms| => EntryOf(ms[i], classes))
  }

  function Among(s: set<MessageKey>): MessageKey -> bool {
    k => k in s
  }

  predicate HasAnalysisError(e: Selection.Entry) {
    e.classification.analysisError.Some?
  }

  // ---------------------------------------------------------------------------
  // The loops of the program
  // ---------------------------------------------------------------------------

  method BuildClassMap(valid: seq<Classification>, failed: seq<Classification>, errors: seq<AnalysisError>)
      returns (classes: map<MessageKey, Classification>)
    ensures classes == ClassMap(valid, failed, errors)
  {
    classes := map[];
    for i := 0 to |valid|
      invariant classes == Overridden(map[], valid[..i])
    {
      assert valid[..i + 1][..i] == valid[..i];
      classes := classes[valid[i].key := valid[i]];
    }
    assert valid[..|valid|] == valid;
    ghost var attached := WithErrors(failed, errors);
    for i := 0 to |failed|
      invariant classes == Overridden(Overridden(map[], valid), attached[..i])
    {
      assert attached[..i + 1][..i] == attached[..i];
      var error := if i < |errors| then errors[i] else AnalysisError(failed[i].key, Unspecified, UnknownStage);
      classes := classes[failed[i].key := failed[i].(analysisError := Some(error))];
    }
    assert attached[..|failed|] == attached;
  }

  method BuildEntries(ms: seq<Message>, classes: map<MessageKey, Classification>)
      returns (entries: seq<Selection.Entry>, analysisFailed: nat, perAccount: map<string, nat>)
    requires forall k :: k in classes ==> classes[k].key == k
    ensures entries == Entries(ms, classes)
    ensures analysisFailed == Count(entries, HasAnalysisError)
    ensures forall l :: Get(perAccount, l) == InGroup(entries, EntryAccount, HasAnalysisError, l)
  {
    hide InGroup, Count, Entries;
    entries, analysisFailed, perAccount := [], 0, map[];
    forall l ensures InGroup([], EntryAccount, HasAnalysisError, l) == 0 { NoneInGroup(l); }
    assert Count([], HasAnalysisError) == 0 by { CountNone(HasAnalysisError); }
    for i := 0 to |ms|
      invariant |entries| == i && forall k :: 0 <= k < i ==> entries[k] == EntryOf(ms[k], classes)
      invariant analysisFailed == Count(entries, HasAnalysisError)
      invariant forall l :: Get(perAccount, l) == InGroup(entries, EntryAccount, HasAnalysisError, l)
    {
      var e := EntryOf(ms[i], classes);
      CountAppend(entries, e, HasAnalysisError);
      forall l
        ensures InGroup(entries + [e], EntryAccount, HasAnalysisError, l) ==
                InGroup(entries, EntryAccount, HasAnalysisError, l)
                + (if EntryAccount(e) == l && HasAnalysisError(e) then 1 else 0)
      {
        InGroupAppend(entries, e, EntryAccount, HasAnalysisError, l);
      }
      if HasAnalysisError(e) {
        analysisFailed := analysisFailed + 1;
        perAccount := perAccount[ms[i].account := Get(perAccount, ms[i].account) + 1];
      }
      entries := entries + [e];
    }
    assert entries == Entries(ms, classes);
  }

  lemma {:induction false} NoneInGroup(l: string)
    ensures InGroup([], EntryAccount, HasAnalysisError, l) == 0
  {
  }

  ghost function FinalAccount(l: string, ms: seq<Message>, es: seq<Selection.Entry>, valid: seq<Classification>,
                              errors: map<string, FetchPool.FetchError>): AccountStats {
    FinalStats(l, ms, es, KeySet(valid), errors).(
      analysisFailed := InGroup(es, EntryAccount, HasAnalysisError, l))
  }

  ghost predicate IsDigest(d: Digest, ms: seq<Message>, o: Outcome,
                           results: seq<FetchPool.FetchResult>, errors: map<string, FetchPool.FetchError>) {
    var es := Entries(ms, ClassMap(o.valid, o.failed, o.errors));
    var n := Count(es, HasAnalysisError);
    var global := FinalTotals(ms, es, o.valid, errors, |d.accountStats|).(analysisFailed := n);
    && d == Digest(es, global.fetched, global.classified, global.failed, n, global, d.accountStats)
    && AccountsListed(d.accountStats, results, errors, ms, es)
    && forall i :: 0 <= i < |d.accountStats| ==>
         d.accountStats[i] == FinalAccount(d.accountStats[i].account, ms, es, o.valid, errors)
  }

  method BuildDigestDataPartial(ms: seq<Message>, o: Outcome,
                                results: seq<FetchPool.FetchResult>, errors: map<string, FetchPool.FetchError>)
      returns (d: Digest)
    ensures IsDigest(d, ms, o, results, errors)
  {
    hide Count, InGroup, FinalStats, FinalTotals, AccountsListed, Entries, ClassMap;
    var classes := BuildClassMap(o.valid, o.failed, o.errors);
    ClassMapKeys(o.valid, o.failed, o.errors);
    var es, n, perAccount := BuildEntries(ms, classes);
    var global, accounts := BuildDigestStats(ms, es, o.valid, results, errors);
    global := global.(analysisFailed := n);
    var listed: seq<AccountStats> := [];
    for i := 0 to |accounts|
      invariant |listed| == i
      invariant forall k :: 0 <= k < i ==>
        listed[k] == accounts[k].(analysisFailed := Get(perAccount, accounts[k].account))
    {
      listed := listed + [accounts[i].(analysisFailed := Get(perAccount, accounts[i].account))];
    }
    SameNames(accounts, listed, results, errors, ms, es);
    d := Digest(es, global.fetched, global.classified, global.failed, n, global, listed);
  }

  lemma {:induction false} SameNames(accounts: seq<AccountStats>, listed: seq<AccountStats>,
                                     results: seq<FetchPool.FetchResult>, errors: map<string, FetchPool.FetchError>,
                                     ms: seq<Message>, es: seq<Selection.Entry>)
    requires |accounts| == |listed| && forall i :: 0 <= i < |accounts| ==> accounts[i].account == listed[i].account
    requires AccountsListed(accounts, results, errors, ms, es)
    ensures AccountsListed(listed, results, errors, ms, es)
  {
    assert AccountNames(accounts) == AccountNames(listed);
  }

  // ---------------------------------------------------------------------------
  // Which classification each message gets
  // ---------------------------------------------------------------------------

  /** Written keys hold one of their classifications; the others keep their value. */
  lemma {:induction false} OverriddenExact(m: map<MessageKey, Classification>, cs: seq<Classification>)
    ensures Overridden(m, cs).Keys == m.Keys + KeySet(cs)
    ensures forall k :: k in KeySet(cs) ==> Overridden(m, cs)[k] in cs && Overridden(m, cs)[k].key == k
    ensures forall k :: k in m && k !in KeySet(cs) ==> Overridden(m, cs)[k] == m[k]
  {
    if cs == [] {
      assert KeySet(cs) == {};
    } else {
      var init, last := cs[..|cs| - 1], cs[|cs| - 1];
      OverriddenExact(m, init);
      assert cs == init + [last];
      assert KeySet(cs) == KeySet(init) + {last.key};
    }
  }

  lemma {:induction false} OverriddenDistinct(m: map<MessageKey, Classification>, cs: seq<Classification>, i: nat)
    requires Distinct(Keys(cs)) && i < |cs|
    ensures cs[i].key in Overridden(m, cs) && Overridden(m, cs)[cs[i].key] == cs[i]
  {
    OverriddenExact(m, cs);
    var c := Overridden(m, cs)[cs[i].key];
    var j :| 0 <= j < |cs| && cs[j] == c;
    assert Keys(cs)[i] == Keys(cs)[j];
  }

  lemma {:induction false} WithErrorsKeys(failed: seq<Classification>, errors: seq<AnalysisError>)
    ensures Keys(WithErrors(failed, errors)) == Keys(failed)
    ensures KeySet(WithErrors(failed, errors)) == KeySet(failed)
    ensures forall c :: c in WithErrors(failed, errors) ==> c.analysisError.Some?
  {
    var attached := WithErrors(failed, errors);
    assert Keys(attached) == Keys(failed);
    KeySetMembers(attached);
    KeySetMembers(failed);
  }

  lemma {:induction false} ClassMapKeys(valid: seq<Classification>, failed: seq<Classification>,
                                        errors: seq<AnalysisError>)
    ensures ClassMap(valid, failed, errors).Keys == KeySet(valid) + KeySet(failed)
    ensures forall k :: k in ClassMap(valid, failed, errors) ==> ClassMap(valid, failed, errors)[k].key == k
    ensures forall k :: k in KeySet(failed) ==> ClassMap(valid, failed, errors)[k].analysisError.Some?
    ensures forall k :: k in KeySet(valid) && k !in KeySet(failed) ==> ClassMap(valid, failed, errors)[k] in valid
  {
    hide KeySet, Overridden, WithErrors;
    OverriddenExact(map[], valid);
    OverriddenExact(Overridden(map[], valid), WithErrors(failed, errors));
    WithErrorsKeys(failed, errors);
  }

  /** Entry i shows message i, under that message's own key, whatever the provider replied. */
  lemma {:induction false} EntriesAligned(ms: seq<Message>, o: Outcome)
    ensures var es := Entries(ms, ClassMap(o.valid, o.failed, o.errors));
            |es| == |ms| && forall i :: 0 <= i < |es| ==>
              && es[i].classification.key == ms[i].Key()
              && EntryAccount(es[i]) == ms[i].account
              && es[i].isRead == ms[i].isRead && es[i].excerpt == ms[i].body
              && es[i].subject == ms[i].subject && es[i].from == ms[i].from && es[i].date == ms[i].date
  {
    hide ClassMap;
    ClassMapKeys(o.valid, o.failed, o.errors);
  }

  /**
    After the accounting of the classifier every message shows the right analysis: a valid
    one is shown as accepted, a failed one with its own error, and the number of failed
    analyses in the digest is the number of failed messages.
   */
  lemma {:induction false} AnalysesShown(ms: seq<Message>, first: ResponseParser.Parsed, o: Outcome)
    requires Accounted(MessageKeys(ms), first, o)
    ensures var es := Entries(ms, ClassMap(o.valid, o.failed, o.errors));
            && (forall i, j :: 0 <= i < |ms| && 0 <= j < |o.valid| && ms[i].Key() == o.valid[j].key ==>
                  es[i].classification == o.valid[j])
            && (forall i :: 0 <= i < |ms| ==> (HasAnalysisError(es[i]) <==> ms[i].Key() in KeySet(o.failed)))
            && Count(es, HasAnalysisError) == Count(MessageKeys(ms), Among(KeySet(o.failed)))
            && (Count(es, HasAnalysisError) > 0 <==> o.failed != [])
            && (Distinct(MessageKeys(ms)) ==> Count(es, HasAnalysisError) == |o.failed|)
  {
    hide ClassMap, KeySet, Count;
    var classes := ClassMap(o.valid, o.failed, o.errors);
    var es := Entries(ms, classes);
    forall i, j | 0 <= i < |ms| && 0 <= j < |o.valid| && ms[i].Key() == o.valid[j].key
      ensures es[i].classification == o.valid[j]
    {
      ValidShown(first, MessageKeys(ms), o, j);
    }
    forall i | 0 <= i < |ms|
      ensures HasAnalysisError(es[i]) <==> ms[i].Key() in KeySet(o.failed)
    {
      ErrorShown(first, MessageKeys(ms), o, ms[i].Key());
    }
    CountAligned(es, HasAnalysisError, MessageKeys(ms), Among(KeySet(o.failed)));
    FailedCounted(MessageKeys(ms), o.failed);
  }

  lemma {:induction false} ValidShown(first: ResponseParser.Parsed, keys: seq<MessageKey>, o: Outcome, j: nat)
    requires Accounted(keys, first, o) && j < |o.valid|
    ensures ClassOf(o.valid[j].key, ClassMap(o.valid, o.failed, o.errors)) == o.valid[j]
  {
    hide Overridden;
    var k := o.valid[j].key;
    OverriddenDistinct(map[], o.valid, j);
    OverriddenExact(Overridden(map[], o.valid), WithErrors(o.failed, o.errors));
    WithErrorsKeys(o.failed, o.errors);
    assert k in KeySet(o.valid);
  }

  lemma {:induction false} ErrorShown(first: ResponseParser.Parsed, keys: seq<MessageKey>, o: Outcome, k: MessageKey)
    requires Accounted(keys, first, o)
    ensures ClassOf(k, ClassMap(o.valid, o.failed, o.errors)).analysisError.Some? <==> k in KeySet(o.failed)
  {
    hide ClassMap, KeySet;
    ClassMapKeys(o.valid, o.failed, o.errors);
  }

  /** A failed message is shown with its own error. */
  lemma {:induction false} FailureShown(first: ResponseParser.Parsed, ms: seq<Message>, o: Outcome, i: nat, j: nat)
    requires Accounted(MessageKeys(ms), first, o) && Distinct(Keys(o.failed))
    requires i < |ms| && j < |o.failed| && ms[i].Key() == o.failed[j].key
    ensures Entries(ms, ClassMap(o.valid, o.failed, o.errors))[i].classification
         == FailedClassification(ms[i].Key()).(analysisError := Some(o.errors[j]))
    ensures o.errors[j].key == ms[i].Key()
  {
    hide Overridden;
    var attached := WithErrors(o.failed, o.errors);
    WithErrorsKeys(o.failed, o.errors);
    OverriddenDistinct(Overridden(map[], o.valid), attached, j);
  }

  lemma {:induction false} CountPositive<T>(s: seq<T>, p: T -> bool)
    ensures Count(s, p) > 0 <==> exists x :: x in s && p(x)
  {
    if s != [] {
      CountPositive(s[..|s| - 1], p);
      assert forall x :: x in s <==> x in s[..|s| - 1] || x == s[|s| - 1];
    }
  }

  lemma {:induction false} KeySetOf(cs: seq<Classification>)
    ensures SetOf(Keys(cs)) == KeySet(cs)
    ensures |KeySet(cs)| <= |cs|
    ensures |KeySet(cs)| == |cs| <==> Distinct(Keys(cs))
  {
    KeySetMembers(cs);
    assert SetOf(Keys(cs)) == KeySet(cs);
    SetSize(Keys(cs));
  }

  lemma {:induction false} FailedCounted(keys: seq<MessageKey>, failed: seq<Classification>)
    requires forall i :: 0 <= i < |failed| ==> failed[i].key in keys
    ensures Count(keys, Among(KeySet(failed))) > 0 <==> failed != []
    ensures Distinct(keys) && Distinct(Keys(failed)) ==> Count(keys, Among(KeySet(failed))) == |failed|
  {
    var p := Among(KeySet(failed));
    CountPositive(keys, p);
    if failed != [] {
      assert failed[0] in failed && failed[0].key in keys;
      assert p(failed[0].key);
    }
    if Distinct(keys) && Distinct(Keys(failed)) {
      CountMembers(keys, KeySet(failed), p);
      KeySetOf(failed);
      assert SetOf(keys) * KeySet(failed) == KeySet(failed);
    }
  }

  // ---------------------------------------------------------------------------
  // Conservation
  // ---------------------------------------------------------------------------

  lemma {:induction false} ReadUnread(ms: seq<Message>, l: string)
    ensures InGroup(ms, AccountOf, IsRead, l) + InGroup(ms, AccountOf, IsUnread, l) == InGroup(ms, AccountOf, Any, l)
    ensures Count(ms, IsRead) + Count(ms, IsUnread) == |ms|
  {
    GroupSplit(ms, AccountOf, Any, IsRead, IsUnread, l);
    CountSplit(ms, Any, IsRead, IsUnread);
    CountAll(ms);
  }

  lemma {:induction false} CountAll<T>(s: seq<T>)
    ensures Count(s, Any) == |s|
  {
    if s != [] { CountAll(s[..|s| - 1]); }
  }

  lemma {:induction false} ClassifiedFailed(es: seq<Selection.Entry>, keys: set<MessageKey>, l: string)
    ensures InGroup(es, EntryAccount, IsClassified(keys), l) + InGroup(es, EntryAccount, IsUnclassified(keys), l)
         == InGroup(es, EntryAccount, Any, l)
    ensures Count(es, IsClassified(keys)) + Count(es, IsUnclassified(keys)) == |es|
  {
    GroupSplit(es, EntryAccount, Any, IsClassified(keys), IsUnclassified(keys), l);
    CountSplit(es, Any, IsClassified(keys), IsUnclassified(keys));
    CountAll(es);
  }

  /** The labels of an account's entries add up to its entries. */
  lemma {:induction false} LabelsAddUp(es: seq<Selection.Entry>, l: string, names: seq<string>)
    requires Distinct(names) && "" !in names
    requires forall k :: k in Tally(es, LabelIn(l)) ==> k in names
    ensures SumOfCounts(Tally(es, LabelIn(l)), names) == InGroup(es, EntryAccount, Any, l)
  {
    var p := (e: Selection.Entry) => EntryAccount(e) == l;
    TallyAddsUp(es, LabelIn(l), names, p);
    GroupAligned(es, EntryAccount, Any, l, es, p);
  }

  /**
    Per account: fetched messages are read or unread, and classified or failed; the label
    counts, over any list of labels that has them all, add up to the same number.
   */
  lemma {:induction false} AccountConserved(l: string, ms: seq<Message>, o: Outcome,
                                            errors: map<string, FetchPool.FetchError>, names: seq<string>)
    requires var es := Entries(ms, ClassMap(o.valid, o.failed, o.errors));
             Distinct(names) && "" !in names &&
             forall k :: k in FinalAccount(l, ms, es, o.valid, errors).countsByLabel ==> k in names
    ensures var s := FinalAccount(l, ms, Entries(ms, ClassMap(o.valid, o.failed, o.errors)), o.valid, errors);
            && s.fetched == s.read + s.unread
            && s.fetched == s.classified + s.failed
            && s.fetched == SumOfCounts(s.countsByLabel, names)
  {
    hide InGroup, Tally, ClassMap, LabelIn, TopNames;
    var es := Entries(ms, ClassMap(o.valid, o.failed, o.errors));
    ReadUnread(ms, l);
    ClassifiedFailed(es, KeySet(o.valid), l);
    SameAccounts(ms, o, l);
    LabelsAddUp(es, l, names);
  }

  lemma {:induction false} SameAccounts(ms: seq<Message>, o: Outcome, l: string)
    ensures InGroup(Entries(ms, ClassMap(o.valid, o.failed, o.errors)), EntryAccount, Any, l)
         == InGroup(ms, AccountOf, Any, l)
  {
    hide Entries, ClassMap;
    var es := Entries(ms, ClassMap(o.valid, o.failed, o.errors));
    EntriesAligned(ms, o);
    GroupAligned(es, EntryAccount, Any, l, ms, m => AccountOf(m) == l);
    GroupAligned(ms, AccountOf, Any, l, ms, m => AccountOf(m) == l);
  }

  /** Summing a figure over the accounts of a digest. */
  function Total(accounts: seq<AccountStats>, f: AccountStats -> nat): nat {
    if accounts == [] then 0 else Total(accounts[..|accounts| - 1], f) + f(accounts[|accounts| - 1])
  }

  /** A figure that counts the elements of an account sums up to the count of all. */
  lemma {:induction false} TotalOfGroups<T>(accounts: seq<AccountStats>, f: AccountStats -> nat, s: seq<T>,
                                            group: T -> string, p: T -> bool)
    requires forall i :: 0 <= i < |accounts| ==> f(accounts[i]) == InGroup(s, group, p, accounts[i].account)
    requires Distinct(AccountNames(accounts)) && forall x :: x in s && p(x) ==> group(x) in AccountNames(accounts)
    ensures Total(accounts, f) == Count(s, p)
  {
    TotalIsSum(accounts, f, l => InGroup(s, group, p, l));
    GroupsAddUp(s, group, p, AccountNames(accounts));
  }

  lemma {:induction false} TotalIsSum(accounts: seq<AccountStats>, f: AccountStats -> nat, g: string -> nat)
    requires forall i :: 0 <= i < |accounts| ==> f(accounts[i]) == g(accounts[i].account)
    ensures Total(accounts, f) == SumOver(AccountNames(accounts), g)
  {
    if accounts != [] {
      var n := |accounts| - 1;
      TotalIsSum(accounts[..n], f, g);
      assert AccountNames(accounts)[..n] == AccountNames(accounts[..n]);
    }
  }

  /** Every message and every entry belongs to a listed account. */
  lemma {:induction false} AllListed(d: Digest, ms: seq<Message>, o: Outcome, results: seq<FetchPool.FetchResult>,
                                     errors: map<string, FetchPool.FetchError>)
    requires IsDigest(d, ms, o, results, errors)
    ensures forall m :: m in ms ==> AccountOf(m) in AccountNames(d.accountStats)
    ensures forall e :: e in d.messages ==> EntryAccount(e) in AccountNames(d.accountStats)
  {
    hide FinalAccount, FinalTotals, Entries;
  }

  /** The global figures are the sums of the account figures. */
  lemma {:induction false} TotalsConserved(d: Digest, ms: seq<Message>, o: Outcome,
                                           results: seq<FetchPool.FetchResult>,
                                           errors: map<string, FetchPool.FetchError>)
    requires IsDigest(d, ms, o, results, errors)
    ensures var g, accounts := d.globalStats, d.accountStats;
            && g.fetched == Total(accounts, (a: AccountStats) => a.fetched)
            && g.read == Total(accounts, (a: AccountStats) => a.read)
            && g.unread == Total(accounts, (a: AccountStats) => a.unread)
            && g.failed == Total(accounts, (a: AccountStats) => a.failed)
            && g.analysisFailed == Total(accounts, (a: AccountStats) => a.analysisFailed)
            && g.fetched == g.read + g.unread
            && g.fetched == Total(accounts, (a: AccountStats) => a.classified) + g.failed
  {
    hide Count, InGroup, Tally, TopNames, Entries, Total, AccountsListed;
    var accounts, keys := d.accountStats, KeySet(o.valid);
    AllListed(d, ms, o, results, errors);
    assert Distinct(AccountNames(accounts)) by { AreDistinct(accounts, results, errors, ms, d.messages); }
    TotalOfGroups(accounts, (a: AccountStats) => a.fetched, ms, AccountOf, Any);
    TotalOfGroups(accounts, (a: AccountStats) => a.read, ms, AccountOf, IsRead);
    TotalOfGroups(accounts, (a: AccountStats) => a.unread, ms, AccountOf, IsUnread);
    TotalOfGroups(accounts, (a: AccountStats) => a.failed, d.messages, EntryAccount, IsUnclassified(keys));
    TotalOfGroups(accounts, (a: AccountStats) => a.classified, d.messages, EntryAccount, IsClassified(keys));
    TotalOfGroups(accounts, (a: AccountStats) => a.analysisFailed, d.messages, EntryAccount, HasAnalysisError);
    CountAll(ms);
    ReadUnread(ms, "");
    ClassifiedFailed(d.messages, keys, "");
  }

  lemma {:induction false} AreDistinct(accounts: seq<AccountStats>, results: seq<FetchPool.FetchResult>,
                                       errors: map<string, FetchPool.FetchError>, ms: seq<Message>,
                                       es: seq<Selection.Entry>)
    requires AccountsListed(accounts, results, errors, ms, es)
    ensures Distinct(AccountNames(accounts))
  {
  }

  /** Every label count is the sum of the account counts of that label. */
  lemma {:induction false} LabelTotalsConserved(d: Digest, ms: seq<Message>, o: Outcome,
                                                results: seq<FetchPool.FetchResult>,
                                                errors: map<string, FetchPool.FetchError>, k: string)
    requires IsDigest(d, ms, o, results, errors)
    requires k != ""
    ensures Get(d.globalStats.countsByLabel, k) == Total(d.accountStats, (a: AccountStats) => Get(a.countsByLabel, k))
    ensures Get(d.globalStats.countsByLabel, k) == |Selection.WithLabel(d.messages, k)|
  {
    hide Count, InGroup, Tally, TopNames, Entries, Total, AccountsListed, Selection.LabelOf, Selection.WithLabel;
    var es := d.messages;
    AllListed(d, ms, o, results, errors);
    AreDistinct(d.accountStats, results, errors, ms, es);
    var p := (e: Selection.Entry) => Selection.LabelOf(e) == k;
    forall l
      ensures Get(Tally(es, LabelIn(l)), k) == InGroup(es, EntryAccount, p, l)
    {
      LabelInGroup(es, l, k, p);
    }
    TotalOfGroups(d.accountStats, (a: AccountStats) => Get(a.countsByLabel, k), es, EntryAccount, p);
    TallyExact(es, Selection.LabelOf, k, p);
    WithLabelCount(es, k, p);
  }

  lemma {:induction false} LabelInGroup(es: seq<Selection.Entry>, l: string, k: string, p: Selection.Entry -> bool)
    requires k != "" && forall e :: p(e) == (Selection.LabelOf(e) == k)
    ensures Get(Tally(es, LabelIn(l)), k) == InGroup(es, EntryAccount, p, l)
  {
    var q := (e: Selection.Entry) => EntryAccount(e) == l && p(e);
    TallyExact(es, LabelIn(l), k, q);
    GroupAligned(es, EntryAccount, p, l, es, q);
  }

  lemma {:induction false} WithLabelCount(es: seq<Selection.Entry>, k: string, p: Selection.Entry -> bool)
    requires forall e :: p(e) == (Selection.LabelOf(e) == k)
    ensures Count(es, p) == |Selection.WithLabel(es, k)|
  {
    hide Selection.LabelOf;
    if es != [] { WithLabelCount(es[..|es| - 1], k, p); }
  }

  /** Every account is checked once, and fails exactly when it has a fetch error. */
  lemma {:induction false} AccountsConserved(d: Digest, ms: seq<Message>, o: Outcome,
                                             results: seq<FetchPool.FetchResult>,
                                             errors: map<string, FetchPool.FetchError>)
    requires IsDigest(d, ms, o, results, errors)
    ensures var g := d.globalStats;
            && g.accountsChecked == |d.accountStats|
            && g.accountsChecked == g.accountsSucceeded + g.accountsFailed
            && g.accountsFailed == |errors| <= g.accountsChecked
  {
    hide FinalStats, Entries, Count, Tally, TopNames;
    var names := AccountNames(d.accountStats);
    SetSize(names);
    assert errors.Keys <= SetOf(names);
    SubsetSize(errors.Keys, SetOf(names));
  }

  lemma {:induction false} SubsetSize<T>(a: set<T>, b: set<T>)
    requires a <= b
    ensures |a| <= |b|
    ensures |a| == |b| ==> a == b
  {
    assert |b| == |a| + |b - a| by { assert b == a + (b - a); }
  }

  /**
    The global number of classified messages is the number of accepted classifications,
    which need not be that of the accounts: for distinct messages the two agree exactly
    when the accepted keys are distinct and are all keys of messages.
   */
  lemma {:induction false} ClassifiedConserved(d: Digest, ms: seq<Message>, o: Outcome,
                                               results: seq<FetchPool.FetchResult>,
                                               errors: map<string, FetchPool.FetchError>)
    requires IsDigest(d, ms, o, results, errors)
    requires Distinct(MessageKeys(ms))
    ensures d.globalStats.classified == Total(d.accountStats, (a: AccountStats) => a.classified) <==>
            Distinct(Keys(o.valid)) && forall c :: c in o.valid ==> c.key in MessageKeys(ms)
  {
    hide Count, InGroup, Tally, TopNames, Entries, Total, AccountsListed, MessageKeys;
    var keys, mk := KeySet(o.valid), MessageKeys(ms);
    AllListed(d, ms, o, results, errors);
    AreDistinct(d.accountStats, results, errors, ms, d.messages);
    TotalOfGroups(d.accountStats, (a: AccountStats) => a.classified, d.messages, EntryAccount, IsClassified(keys));
    ClassifiedByKey(ms, o, keys);
    CountMembers(mk, keys, Among(keys));
    KeySetOf(o.valid);
    SubsetSize(SetOf(mk) * keys, keys);
    assert (forall c :: c in o.valid ==> c.key in mk) <==> SetOf(mk) * keys == keys by { CoveredKeys(o.valid, mk); }
  }

  lemma {:induction false} CoveredKeys(cs: seq<Classification>, mk: seq<MessageKey>)
    ensures (forall c :: c in cs ==> c.key in mk) <==> SetOf(mk) * KeySet(cs) == KeySet(cs)
  {
    if SetOf(mk) * KeySet(cs) == KeySet(cs) {
      assert forall c :: c in cs ==> c.key in KeySet(cs);
    }
  }

  lemma {:induction false} ClassifiedByKey(ms: seq<Message>, o: Outcome, keys: set<MessageKey>)
    ensures Count(Entries(ms, ClassMap(o.valid, o.failed, o.errors)), IsClassified(keys))
         == Count(MessageKeys(ms), Among(keys))
  {
    hide Entries, ClassMap;
    EntriesAligned(ms, o);
    CountAligned(Entries(ms, ClassMap(o.valid, o.failed, o.errors)), IsClassified(keys), MessageKeys(ms), Among(keys));
  }
}
