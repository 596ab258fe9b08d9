/**
  Guarantees one might expect of a run and that it gives only under a condition: the
  condition, and an input that shows the guarantee fails without it.
 */
module Limits {
  import opened Text
  import opened Decimal
  import opened Mail
  import opened Store
  import opened Classify
  import opened Pipeline
  import opened Ledger
  import opened DigestData
  import FetchPool
  import ResponseParser
  import ResponseText

  // ---------------------------------------------------------------------------
  // A reply with one valid item
  // ---------------------------------------------------------------------------

  type Decoder = string -> Option<ResponseParser.Wrapper>

  function ValidItem(k: MessageKey): ResponseParser.Item {
    ResponseParser.Item(k.uid, k.account, "Useful", 1.0, "", "s", ["p"], [], "", "")
  }

  /** The object text in the reply `raw` decodes to this one item. */
  predicate ReadsAs(raw: string, decode: Decoder, k: MessageKey) {
    && !ResponseParser.IsBlank(raw)
    && decode(ResponseText.SanitizeResponse(ResponseText.StripFences(raw)))
       == Some(ResponseParser.Wrapper(1, [ValidItem(k)]))
  }

  /** Some reply delivers a valid item for this key. */
  ghost predicate Readable(decode: Decoder, k: MessageKey) {
    exists raw :: ReadsAs(raw, decode, k)
  }

  lemma {:induction false} NotBlank(c: char)
    requires !IsSpace(c)
    ensures !ResponseParser.IsBlank([c])
  {
    hide Trim;
    TrimFixed([c]);
  }

  lemma {:induction false} ItemIsGood(k: MessageKey, labels: seq<string>)
    requires "Useful" in labels
    ensures ResponseParser.GoodFields(ValidItem(k), ResponseParser.LabelSet(labels))
  {
    hide ResponseParser.IsBlank, Trim;
    NotBlank('s');
    NotBlank('p');
    TrimFixed("");
  }

  /** The reply parses cleanly, with the item's key as the only valid one. */
  lemma {:induction false} CleanReply(k: MessageKey, raw: string, decode: Decoder, labels: seq<string>)
    requires "Useful" in labels && ReadsAs(raw, decode, k)
    ensures var p := ResponseParser.ParsedResponse(raw, decode, labels);
            p.error == None && Keys(p.classifications) == [k] && KeySet(p.classifications) == {k}
  {
    hide ResponseParser.GoodFields, ResponseParser.Accepted, ResponseParser.ErrorsUpTo, ResponseParser.IsBlank,
      ResponseText.SanitizeResponse, ResponseText.StripFences;
    var items := [ValidItem(k)];
    ItemIsGood(k, labels);
    assert ResponseParser.IsAccepted(items, ResponseParser.LabelSet(labels), 0);
    ResponseParser.NoErrors(items, ResponseParser.LabelSet(labels), 1);
    ResponseParser.NoErrorsMeansAll(items, ResponseParser.LabelSet(labels));
    var cs := ResponseParser.Accepted(items, ResponseParser.LabelSet(labels));
    assert cs == [ResponseParser.Result(ValidItem(k))];
  }

  /**
    A reply without errors may leave messages out: any reply that decodes to a valid item
    for one of two requested messages leaves the other neither valid nor failed.
    (`RepairAccounting` says when every requested message is accounted for.)
   */
  lemma {:induction false} CleanReplyMayOmit(k: MessageKey, other: MessageKey, raw: string, decode: Decoder,
                                             labels: seq<string>, maxAttempts: int)
    requires k != other && "Useful" in labels && ReadsAs(raw, decode, k)
    ensures var o := ClassifyOutcome([k, other], Some(raw), None, decode, labels, maxAttempts);
            !o.hardError && other !in KeySet(o.valid) && other !in KeySet(o.failed)
  {
    hide ResponseParser.ParsedResponse, ReadsAs;
    CleanReply(k, raw, decode, labels);
  }

  // ---------------------------------------------------------------------------
  // Runs with given fetch results
  // ---------------------------------------------------------------------------

  /** A run in which nothing fails, with these fetch results and the same reply to every request. */
  function Calm(results: seq<FetchPool.FetchResult>, raw: string, decode: Decoder): Env {
    Env(0, false, false, 0, 0, _ => results, false, _ => Some(raw), decode, Some(""), true, false,
        _ => false, _ => 0, _ => false, _ => 0, false, 0)
  }

  /** An account with one message. */
  function Found(k: MessageKey): FetchPool.FetchResult {
    FetchPool.FetchResult(k.account, [Message(k.account, k.uid, "", "", 0, "", false)], None)
  }

  function Empty(account: string): FetchPool.FetchResult {
    FetchPool.FetchResult(account, [], None)
  }

  function Broken(account: string): FetchPool.FetchResult {
    FetchPool.FetchResult(account, [], Some(FetchPool.FetchFailed("")))
  }

  lemma {:induction false} CalmFetches(c: Contents, opts: Options, cfg: Config, results: seq<FetchPool.FetchResult>,
                                       raw: string, decode: Decoder)
    ensures var run := Invocation(opts, Calm(results, raw, decode));
            && Fetches(c, run, cfg)
            && FetchedMessages(c, run, cfg) == FetchPool.Flattened(results)
            && (AccountsFailed(c, run, cfg) <==> exists r :: r in results && r.err.Some?)
  {
    hide LatestCompletion;
    SomeError(results);
  }

  lemma {:induction false} SomeError(results: seq<FetchPool.FetchResult>)
    ensures FetchPool.ErrorsByAccount(results) != map[] <==> exists r :: r in results && r.err.Some?
  {
    if results != [] {
      var init, last := results[..|results| - 1], results[|results| - 1];
      SomeError(init);
      assert forall r :: r in results <==> r in init || r == last;
      if last.err.Some? { assert last.account in FetchPool.ErrorsByAccount(results); }
    }
  }

  lemma {:induction false} FoundKeys(k: MessageKey, more: seq<FetchPool.FetchResult>)
    requires more == [] || (|more| == 1 && more[0].err.Some?)
    ensures var ms := FetchPool.Flattened([Found(k)] + more);
            MessageKeys(ms) == [k] && |ms| == 1 && ms[0].Key() == k
  {
    var found := Found(k);
    assert FetchPool.Flattened([found]) == found.messages by {
      assert [found][..0] == [];
      assert FetchPool.Flattened([]) == [];
    }
    if more != [] { assert ([found] + more)[..1] == [found]; } else { assert [found] + more == [found]; }
  }

  // ---------------------------------------------------------------------------
  // Failing accounts
  // ---------------------------------------------------------------------------

  /**
    A run with a failing account ends completed exactly when something was fetched and all
    of it had been processed before: with nothing left to analyse, the account error is
    forgotten.
   */
  lemma {:induction false} CompletedDespiteAccountError(c: Contents, run: Invocation, cfg: Config)
    requires AccountsFailed(c, run, cfg)
    ensures ReportAt(c, run, cfg).result.status == Completed <==>
            FetchedMessages(c, run, cfg) != [] && Analysing(c, run, cfg) == []
  {
    hide RunReport, OutcomeOf, Analysing, FetchPool.Flattened;
    StatusExactly(c, run, cfg);
  }

  lemma {:induction false} AccountErrorForgotten(c: Contents, opts: Options, cfg: Config, k: MessageKey,
                                                 account: string, raw: string, decode: Decoder)
    requires k in c.messages && !opts.forceReprocess
    ensures var run := Invocation(opts, Calm([Found(k), Broken(account)], raw, decode));
            AccountsFailed(c, run, cfg) && ReportAt(c, run, cfg).result.status == Completed
  {
    hide RunReport, FetchedMessages, AccountsFailed, Fetches, Since;
    var results := [Found(k), Broken(account)];
    var run := Invocation(opts, Calm(results, raw, decode));
    CalmFetches(c, opts, cfg, results, raw, decode);
    assert results[1] in results;
    FoundKeys(k, [Broken(account)]);
    assert results == [Found(k)] + [Broken(account)];
    FetchPool.NoneFresh(FetchedMessages(c, run, cfg), c.messages.Keys);
    CompletedDespiteAccountError(c, run, cfg);
  }

  /** The error of a run that reports that all accounts failed. */
  predicate ReportsAllFailed(r: Result) {
    r.err.Some? && r.err.value.AllAccountsFailed?
  }

  /**
    A run reports that all accounts failed exactly when some account failed and the others
    delivered nothing.
   */
  lemma {:induction false} AllFailedExactly(c: Contents, run: Invocation, cfg: Config)
    ensures ReportsAllFailed(ReportAt(c, run, cfg).result) <==>
            Fetches(c, run, cfg)
            && var results := run.env.fetch(Since(c, run.opts, cfg, run.env).value);
               && (exists r :: r in results && r.err.Some?)
               && (forall r :: r in results && r.err == None ==> r.messages == [])
  {
    hide Analysed, Since, Ended, Started, FetchPool.Flattened, FetchPool.ErrorsByAccount, NewMessages;
    if Fetches(c, run, cfg) {
      var results := run.env.fetch(Since(c, run.opts, cfg, run.env).value);
      StartedSame(c, run.opts, cfg, run.env);
      SomeError(results);
      NothingFlattened(results);
      var c1 := Started(c, run.env);
      var ms := NewMessages(c1, FetchPool.Flattened(results), run.opts, run.env);
      AnalysedError(c1, RunId(c.nextID + 1), AccountsFailed(c, run, cfg), ms, run.opts, cfg, run.env);
    } else if !run.env.recordRunFails {
      StartedSame(c, run.opts, cfg, run.env);
    }
  }

  lemma {:induction false} NothingFlattened(results: seq<FetchPool.FetchResult>)
    ensures FetchPool.Flattened(results) == [] <==> forall r :: r in results && r.err == None ==> r.messages == []
  {
    if results != [] {
      var init, last := results[..|results| - 1], results[|results| - 1];
      NothingFlattened(init);
      assert forall r :: r in results <==> r in init || r == last;
    }
  }

  lemma {:induction false} AnalysedError(c: Contents, id: string, accountErrors: bool, ms: seq<Message>,
                                         opts: Options, cfg: Config, env: Env)
    ensures !ReportsAllFailed(Analysed(c, id, accountErrors, ms, opts, cfg, env).result)
  {
    hide OutcomeOf, Requests, Unclassified, AnalysisFailures, MessagesRecorded, FlagsRecorded;
  }

  function Labels(results: seq<FetchPool.FetchResult>): set<string> {
    set r | r in results :: r.account
  }

  predicate AccountFailed(results: seq<FetchPool.FetchResult>, account: string) {
    exists r :: r in results && r.account == account && r.err.Some?
  }

  /**
    The report counts the failed accounts. "All" is true, the count being that of all
    fetched accounts, exactly when each of them failed.
   */
  lemma {:induction false} AllFailedTrue(c: Contents, run: Invocation, cfg: Config)
    requires ReportsAllFailed(ReportAt(c, run, cfg).result)
    ensures Fetches(c, run, cfg)
    ensures var results := run.env.fetch(Since(c, run.opts, cfg, run.env).value);
            var n := ReportAt(c, run, cfg).result.err.value.accounts;
            && n <= |Labels(results)|
            && (n == |Labels(results)| <==> forall l :: l in Labels(results) ==> AccountFailed(results, l))
  {
    hide RunReport, Since, AccountFailed;
    AllFailedExactly(c, run, cfg);
    var results := run.env.fetch(Since(c, run.opts, cfg, run.env).value);
    CountReported(c, run, cfg);
    ErrorLabels(results);
    var failed := FetchPool.ErrorsByAccount(results).Keys;
    SubsetSize(failed, Labels(results));
    assert failed == Labels(results) <==> forall l :: l in Labels(results) ==> AccountFailed(results, l);
  }

  lemma {:induction false} CountReported(c: Contents, run: Invocation, cfg: Config)
    requires ReportsAllFailed(ReportAt(c, run, cfg).result) && Fetches(c, run, cfg)
    ensures ReportAt(c, run, cfg).result.err.value.accounts
         == |FetchPool.ErrorsByAccount(run.env.fetch(Since(c, run.opts, cfg, run.env).value))|
  {
    hide Analysed, Since, Ended, Started, FetchPool.Flattened, FetchPool.ErrorsByAccount, NewMessages;
    StartedSame(c, run.opts, cfg, run.env);
    var results := run.env.fetch(Since(c, run.opts, cfg, run.env).value);
    var c1 := Started(c, run.env);
    var ms := NewMessages(c1, FetchPool.Flattened(results), run.opts, run.env);
    AnalysedError(c1, RunId(c.nextID + 1), AccountsFailed(c, run, cfg), ms, run.opts, cfg, run.env);
  }

  lemma {:induction false} ErrorLabels(results: seq<FetchPool.FetchResult>)
    ensures forall l :: l in FetchPool.ErrorsByAccount(results) <==> AccountFailed(results, l)
    ensures FetchPool.ErrorsByAccount(results).Keys <= Labels(results)
  {
    if results != [] {
      var init, last := results[..|results| - 1], results[|results| - 1];
      ErrorLabels(init);
      assert forall r :: r in results <==> r in init || r == last;
    }
  }

  /**
    An input on which the report is made: one account fails, another has no new mail. It
    counts fewer accounts than were fetched, and so is false, whenever they are two accounts.
   */
  lemma {:induction false} AllFailedFalsely(c: Contents, opts: Options, cfg: Config, idle: string, broken: string,
                                            raw: string, decode: Decoder)
    ensures var results := [Empty(idle), Broken(broken)];
            var r := ReportAt(c, Invocation(opts, Calm(results, raw, decode)), cfg).result;
            && ReportsAllFailed(r)
            && r.status == IngestFailed
            && (r.err.value.accounts < |Labels(results)| <==> idle != broken)
  {
    hide RunReport, FetchedMessages, AccountsFailed, Fetches, Since;
    var results := [Empty(idle), Broken(broken)];
    var run := Invocation(opts, Calm(results, raw, decode));
    CalmFetches(c, opts, cfg, results, raw, decode);
    assert results[1] in results;
    AllFailedExactly(c, run, cfg);
    NothingFlattened(results);
    NothingNew(c, opts, run.env);
    StatusExactly(c, run, cfg);
    AllFailedTrue(c, run, cfg);
    TwoLabels(idle, broken);
  }

  lemma {:induction false} TwoLabels(idle: string, broken: string)
    ensures var results := [Empty(idle), Broken(broken)];
            (forall l :: l in Labels(results) ==> AccountFailed(results, l)) <==> idle == broken
  {
    var results := [Empty(idle), Broken(broken)];
    assert results[0] in results && results[1] in results;
    assert idle in Labels(results);
  }

  // ---------------------------------------------------------------------------
  // Replies that do not match the request
  // ---------------------------------------------------------------------------

  lemma {:induction false} TwoFound(k: MessageKey, other: MessageKey)
    ensures MessageKeys(FetchPool.Flattened([Found(k), Found(other)])) == [k, other]
  {
    var first, second := Found(k), Found(other);
    assert [first, second][..1] == [first];
    FoundKeys(k, []);
    assert [first] + [] == [first];
    assert FetchPool.Flattened([first, second]) == FetchPool.Flattened([first]) + second.messages;
  }

  /** New messages are all analysed. */
  lemma {:induction false} AllNew(fetched: seq<Message>, known: set<MessageKey>)
    requires forall k :: k in MessageKeys(fetched) ==> k !in known
    ensures FetchPool.Fresh(fetched, known) == fetched
  {
    if fetched != [] {
      var init, last := fetched[..|fetched| - 1], fetched[|fetched| - 1];
      assert MessageKeys(fetched) == MessageKeys(init) + [last.Key()];
      AllNew(init, known);
      assert fetched == init + [last];
    }
  }

  /**
    An input on which the counts miss a message: of two new messages the reply analyses one,
    cleanly, and the other is counted as unclassified but not as a failed analysis.
   */
  lemma {:induction false} OmittedIsNotCounted(c: Contents, opts: Options, cfg: Config, k: MessageKey,
                                               other: MessageKey, raw: string, decode: Decoder)
    requires k != other && k !in c.messages && other !in c.messages && ReadsAs(raw, decode, k)
    ensures var run := Invocation(opts, Calm([Found(k), Found(other)], raw, decode));
            ReportAt(c, run, cfg).result.failedCount != ReportAt(c, run, cfg).result.analysisFailedCount
  {
    hide RunReport, FetchedMessages, OutcomeOf, ReadsAs, FetchPool.Fresh, ResponseParser.ParsedResponse;
    var results := [Found(k), Found(other)];
    var run := Invocation(opts, Calm(results, raw, decode));
    CalmFetches(c, opts, cfg, results, raw, decode);
    TwoFound(k, other);
    var ms := Analysing(c, run, cfg);
    AllNew(FetchedMessages(c, run, cfg), c.messages.Keys);
    assert MessageKeys(ms) == [k, other] && MessageKeys(ms)[1] in MessageKeys(ms);
    UsefulLabel(cfg);
    CleanReply(k, raw, decode, cfg.Labels());
    CountsCoverExactly(c, run, cfg);
  }

  /**
    An input on which a message is flagged that was not analysed: the reply names another
    key than the requested one.
   */
  lemma {:induction false} UnrequestedIsFlagged(c: Contents, opts: Options, cfg: Config, k: MessageKey,
                                                other: MessageKey, raw: string, decode: Decoder)
    requires k != other && other !in c.messages && ReadsAs(raw, decode, k) && !opts.dryRun
    ensures var run := Invocation(opts, Calm([Found(other)], raw, decode));
            && MessageKeys(Analysing(c, run, cfg)) == [other]
            && k in KeySet(ReportAt(c, run, cfg).trace.flagged)
  {
    hide RunReport, FetchedMessages, OutcomeOf, ReadsAs, FetchPool.Fresh;
    var run := Invocation(opts, Calm([Found(other)], raw, decode));
    CalmFetches(c, opts, cfg, [Found(other)], raw, decode);
    FoundKeys(other, []);
    assert [Found(other)] + [] == [Found(other)];
    NewKey(FetchedMessages(c, run, cfg), c.messages.Keys, other);
    CalmOutcome(Analysing(c, run, cfg), [Found(other)], cfg, k, raw, decode);
    DeliveryExact(c, run, cfg);
  }

  lemma {:induction false} UsefulLabel(cfg: Config)
    ensures "Useful" in cfg.Labels()
  {
    assert cfg.Labels()[0] == "Useful";
  }

  // ---------------------------------------------------------------------------
  // Dry runs
  // ---------------------------------------------------------------------------

  /** No mode keeps a run from leaving its entry: nothing is persisted exactly when the first write fails. */
  lemma {:induction false} NothingPersistedExactly(c: Contents, run: Invocation, cfg: Config)
    requires Numbered(c)
    ensures ReportAt(c, run, cfg).store == c <==> run.env.recordRunFails
  {
    hide RunReport;
    RunRecordedOnce(c, run, cfg);
  }

  /**
    The recorded messages and flags survive every run exactly in stateless mode, dry run
    or not, given a decoder for which every key has a reply with a valid item.
   */
  lemma {:induction false} LedgerKeptExactly(c: Contents, opts: Options, cfg: Config, decode: Decoder)
    requires forall k :: Readable(decode, k)
    ensures (forall env: Env :: env.decode == decode ==> KeepsLedger(c, Invocation(opts, env), cfg)) <==> opts.stateless
  {
    hide RunReport, ReadsAs;
    if opts.stateless {
      forall env: Env | env.decode == decode
        ensures KeepsLedger(c, Invocation(opts, env), cfg)
      {
        StatelessKeeps(c, Invocation(opts, env), cfg);
      }
    } else {
      var k := FreshKey(c.messages.Keys);
      assert Readable(decode, k);
      var raw :| ReadsAs(raw, decode, k);
      DryRunPersists(c, opts, cfg, k, raw, decode);
      assert !KeepsLedger(c, Invocation(opts, Calm([Found(k)], raw, decode)), cfg);
    }
  }

  predicate KeepsLedger(c: Contents, run: Invocation, cfg: Config) {
    var after := ReportAt(c, run, cfg).store;
    after.messages == c.messages && after.flags == c.flags
  }

  lemma {:induction false} StatelessKeeps(c: Contents, run: Invocation, cfg: Config)
    requires run.opts.stateless
    ensures KeepsLedger(c, run, cfg)
  {
    hide RunReport, OutcomeOf, Analysing, Analysed, Ended, Started, RunId;
    RunShape(c, run, cfg);
    if !run.env.recordRunFails {
      var c1, id, ms := Started(c, run.env), RunId(c.nextID + 1), Analysing(c, run, cfg);
      var r := Analysed(c1, id, AccountsFailed(c, run, cfg), ms, run.opts, cfg, run.env);
      StartedSame(c, run.opts, cfg, run.env);
      AnalysedStore(c1, id, AccountsFailed(c, run, cfg), ms, run, cfg);
      FinishedSame(r.store, r.result, run.env);
      FinishedSame(c1, ReportAt(c, run, cfg).result, run.env);
    }
  }

  /**
    Only `Stateless` keeps a run from recording: a dry run that finds a new message, and
    any reply that decodes to a valid item for it, record the message like any other run.
   */
  lemma {:induction false} DryRunPersists(c: Contents, opts: Options, cfg: Config, k: MessageKey, raw: string,
                                          decode: Decoder)
    requires !opts.stateless && k !in c.messages && ReadsAs(raw, decode, k)
    ensures k in ReportAt(c, Invocation(opts, Calm([Found(k)], raw, decode)), cfg).store.messages
  {
    hide RunReport, FetchedMessages, OutcomeOf, ReadsAs, FetchPool.Fresh;
    var run := Invocation(opts, Calm([Found(k)], raw, decode));
    CalmFetches(c, opts, cfg, [Found(k)], raw, decode);
    FoundKeys(k, []);
    assert [Found(k)] + [] == [Found(k)];
    var ms := Analysing(c, run, cfg);
    NewKey(FetchedMessages(c, run, cfg), c.messages.Keys, k);
    CalmOutcome(ms, [Found(k)], cfg, k, raw, decode);
    LedgerDelta(c, run, cfg, k);
  }

  lemma {:induction false} CalmOutcome(ms: seq<Message>, results: seq<FetchPool.FetchResult>, cfg: Config,
                                       k: MessageKey, raw: string, decode: Decoder)
    requires ReadsAs(raw, decode, k)
    ensures var o := OutcomeOf(ms, cfg, Calm(results, raw, decode)); !o.hardError && KeySet(o.valid) == {k}
  {
    hide ResponseParser.ParsedResponse, ReadsAs;
    UsefulLabel(cfg);
    CleanReply(k, raw, decode, cfg.Labels());
  }

  lemma {:induction false} NewKey(fetched: seq<Message>, known: set<MessageKey>, k: MessageKey)
    requires |fetched| == 1 && fetched[0].Key() == k && k !in known
    ensures FetchPool.Fresh(fetched, known) == fetched && MessageKeys(fetched) == [k]
  {
    assert fetched[..0] == [];
    assert FetchPool.Fresh([], known) == [];
    assert fetched == [fetched[0]];
  }

  /** Some key is in no finite set. */
  lemma {:induction false} FreshKey(ks: set<MessageKey>) returns (k: MessageKey)
    ensures k !in ks
  {
    var longest: nat, rest := 0, ks;
    while rest != {}
      invariant rest <= ks && forall q :: q in ks && q !in rest ==> |q.account| <= longest
    {
      var q :| q in rest;
      longest := if |q.account| > longest then |q.account| else longest;
      rest := rest - {q};
    }
    k := MessageKey(seq(longest + 1, _ => 'a'), 0);
  }
}
