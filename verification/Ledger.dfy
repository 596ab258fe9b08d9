/**
  What the ledger of runs and processed messages guarantees over any sequence of runs,
  whatever the accounts, the model, the channel, the clock and the store do.
 */
module Ledger {
  import opened Text
  import opened Decimal
  import opened Mail
  import opened Store
  import opened Classify
  import opened DigestData
  import opened Pipeline
  import Counting
  import FetchPool
  import ResponseParser

  // ---------------------------------------------------------------------------
  // Histories
  // ---------------------------------------------------------------------------

  datatype Invocation = Invocation(opts: Options, env: Env)

  function ReportAt(c: Contents, run: Invocation, cfg: Config): Report {
    RunReport(c, run.opts, cfg, run.env)
  }

  /** Runs one after the other, from an empty store on: `stores[k]` is what run k finds. */
  ghost predicate IsHistory(cfg: Config, stores: seq<Contents>, runs: seq<Invocation>) {
    && |stores| == |runs| + 1
    && stores[0] == EMPTY
    && forall k :: 0 <= k < |runs| ==> stores[k + 1] == ReportAt(stores[k], runs[k], cfg).store
  }

  // ---------------------------------------------------------------------------
  // The stages of one run
  // ---------------------------------------------------------------------------

  /** Whether a run gets to fetching. */
  predicate Fetches(c: Contents, run: Invocation, cfg: Config) {
    !run.env.recordRunFails && Since(c, run.opts, cfg, run.env).Some?
  }

  /** The messages a run fetched, if it got that far. */
  function FetchedMessages(c: Contents, run: Invocation, cfg: Config): seq<Message> {
    var since := Since(c, run.opts, cfg, run.env);
    if run.env.recordRunFails || since == None then []
    else FetchPool.Flattened(run.env.fetch(since.value))
  }

  predicate AccountsFailed(c: Contents, run: Invocation, cfg: Config) {
    var since := Since(c, run.opts, cfg, run.env);
    since.Some? && FetchPool.ErrorsByAccount(run.env.fetch(since.value)) != map[]
  }

  /** The messages a run analyses. */
  function Analysing(c: Contents, run: Invocation, cfg: Config): seq<Message> {
    NewMessages(c, FetchedMessages(c, run, cfg), run.opts, run.env)
  }

  /** Whether a run gets past rendering and delivery. */
  predicate Delivers(run: Invocation) {
    run.env.rendered.Some? && (run.opts.dryRun || run.env.delivered)
  }

  /** Whether a run reaches the step that records messages, in stateful mode. */
  predicate Recording(c: Contents, run: Invocation, cfg: Config) {
    var ms := Analysing(c, run, cfg);
    ms != [] && Delivers(run) && !run.opts.stateless && !OutcomeOf(ms, cfg, run.env).hardError
  }

  /** Starting a run changes neither the fetch window nor what counts as processed. */
  lemma {:induction false} StartedSame(c: Contents, opts: Options, cfg: Config, env: Env)
    ensures var c' := Started(c, env);
            && c'.messages == c.messages && c'.flags == c.flags && c'.digests == c.digests
            && c'.summaries == c.summaries
            && LatestCompletion(c'.runs) == LatestCompletion(c.runs)
            && Since(c', opts, cfg, env) == Since(c, opts, cfg, env)
  {
    hide LatestCompletion;
    LatestAppend(c.runs, Started(c, env).runs[|c.runs|]);
  }

  lemma {:induction false} FinishedSame(c: Contents, r: Result, env: Env)
    ensures var c' := Ended(c, r, env);
            c'.messages == c.messages && c'.flags == c.flags && c'.digests == c.digests
            && c'.summaries == c.summaries && c'.nextID == c.nextID
  {
  }

  // ---------------------------------------------------------------------------
  // Recording messages
  // ---------------------------------------------------------------------------

  /** Message `m`, the i-th of a run, is to be recorded under key `k`. */
  predicate Recordable(m: Message, i: nat, k: MessageKey, classes: map<MessageKey, Classification>, env: Env) {
    m.Key() == k && k in classes && !env.messageFails(i)
  }

  /** The first message to be recorded under a key. */
  function Recorder(ms: seq<Message>, k: MessageKey, classes: map<MessageKey, Classification>, env: Env)
      : (r: Option<nat>)
    ensures r.Some? ==> r.value < |ms| && Recordable(ms[r.value], r.value, k, classes, env)
    ensures forall j :: 0 <= j < |ms| && (r == None || j < r.value) ==> !Recordable(ms[j], j, k, classes, env)
  {
    if ms == [] then None
    else
      var n := |ms| - 1;
      var r := Recorder(ms[..n], k, classes, env);
      if r == None && Recordable(ms[n], n, k, classes, env) then Some(n) else r
  }

  /** What was recorded stays; a new record is that of the first recordable message of its key. */
  lemma {:induction false} MessagesRecordedExact(c: Contents, id: string, ms: seq<Message>, k: MessageKey,
                                                 classes: map<MessageKey, Classification>, cfg: Config, env: Env)
    ensures var c' := MessagesRecorded(c, id, ms, classes, cfg, env);
            var r := Recorder(ms, k, classes, env);
            && c' == c.(messages := c'.messages)
            && (k in c'.messages <==> k in c.messages || r.Some?)
            && (k in c.messages ==> c'.messages[k] == c.messages[k])
            && (k !in c.messages && r.Some? ==>
                  c'.messages[k] == MessageRecord(id, ms[r.value], classes[k], cfg, env.processedAt(r.value)))
  {
    if ms != [] {
      var n := |ms| - 1;
      MessagesRecordedExact(c, id, ms[..n], k, classes, cfg, env);
    }
  }

  /** Recording flags only adds flags, and never the same one twice. */
  lemma {:induction false} FlagsRecordedExact(c: Contents, cs: seq<Classification>, cfg: Config, env: Env)
    ensures var c' := FlagsRecorded(c, cs, cfg, env);
            && c' == c.(flags := c'.flags)
            && c.flags <= c'.flags
            && (FlagsDistinct(c.flags) ==> FlagsDistinct(c'.flags))
  {
    hide FlagsDistinct, HasFlag, Keyword;
    if cs != [] {
      var n := |cs| - 1;
      FlagsRecordedExact(c, cs[..n], cfg, env);
      var before := FlagsRecorded(c, cs[..n], cfg, env);
      var r := FlagRecord(cs[n].key.account, cs[n].key.uid, Keyword(cs[n], cfg.Labels()), env.appliedAt(n));
      if FlagsDistinct(before.flags) { WithFlagDistinct(before, r, env.appliedAt(n)); }
    }
  }

  // ---------------------------------------------------------------------------
  // What one run does
  // ---------------------------------------------------------------------------

  /** Whether the analysing part of a run records messages. */
  predicate Keeps(o: Outcome, run: Invocation) {
    Delivers(run) && !run.opts.stateless && !o.hardError
  }

  /** The store after the analysing part: runs and summaries untouched, the rest only grown. */
  lemma {:induction false} AnalysedStore(c: Contents, id: string, accountErrors: bool, ms: seq<Message>,
                                         run: Invocation, cfg: Config)
    ensures var o := OutcomeOf(ms, cfg, run.env);
            var c' := Analysed(c, id, accountErrors, ms, run.opts, cfg, run.env).store;
            && c' == c.(messages := c'.messages, flags := c'.flags, digests := c'.digests)
            && c'.messages == (if Keeps(o, run)
                               then MessagesRecorded(c, id, ms, Overridden(map[], o.valid), cfg, run.env).messages
                               else c.messages)
            && c.flags <= c'.flags
            && (FlagsDistinct(c.flags) ==> FlagsDistinct(c'.flags))
            && c'.flags == (if Keeps(o, run) then FlagsRecorded(c, o.valid, cfg, run.env).flags else c.flags)
  {
    hide OutcomeOf, Requests, FlagsDistinct, Unclassified, AnalysisFailures, MessagesRecorded, FlagsRecorded,
      FinalStatus;
    var env := run.env;
    var o := OutcomeOf(ms, cfg, env);
    if Keeps(o, run) {
      var classes := Overridden(map[], o.valid);
      var noted := if run.opts.dryRun then c else DigestRecorded(c, id, true, env.rendered.value, env);
      RecordedFrame(noted, id, ms, classes, cfg, env);
      RecordedFrame(c, id, ms, classes, cfg, env);
      SameMessages(c, noted, id, ms, classes, cfg, env);
      FlagsRecordedExact(MessagesRecorded(noted, id, ms, classes, cfg, env), o.valid, cfg, env);
      SameFlags(c, MessagesRecorded(noted, id, ms, classes, cfg, env), o.valid, cfg, env);
    }
  }

  lemma {:induction false} SameFlags(a: Contents, b: Contents, cs: seq<Classification>, cfg: Config, env: Env)
    requires a.flags == b.flags
    ensures FlagsRecorded(a, cs, cfg, env).flags == FlagsRecorded(b, cs, cfg, env).flags
  {
    hide Keyword, HasFlag;
    if cs != [] { SameFlags(a, b, cs[..|cs| - 1], cfg, env); }
  }

  lemma {:induction false} RecordedFrame(c: Contents, id: string, ms: seq<Message>,
                                         classes: map<MessageKey, Classification>, cfg: Config, env: Env)
    ensures var c' := MessagesRecorded(c, id, ms, classes, cfg, env); c' == c.(messages := c'.messages)
  {
    MessagesRecordedExact(c, id, ms, MessageKey("", 0), classes, cfg, env);
  }

  lemma {:induction false} SameMessages(a: Contents, b: Contents, id: string, ms: seq<Message>,
                                        classes: map<MessageKey, Classification>, cfg: Config, env: Env)
    requires a.messages == b.messages
    ensures MessagesRecorded(a, id, ms, classes, cfg, env).messages
         == MessagesRecorded(b, id, ms, classes, cfg, env).messages
  {
    hide MessageRecord;
    if ms != [] { SameMessages(a, b, id, ms[..|ms| - 1], classes, cfg, env); }
  }

  /** The status of a run that has nothing to analyse. */
  function QuietStatus(c: Contents, run: Invocation, cfg: Config): RunStatus {
    if Fetches(c, run, cfg) && (AccountsFailed(c, run, cfg) ==> FetchedMessages(c, run, cfg) != []) then Completed
    else IngestFailed
  }

  /** A run either has nothing to analyse and only leaves a ledger entry, or analyses its new messages. */
  lemma {:induction false} RunShape(c: Contents, run: Invocation, cfg: Config)
    ensures var env, ms, report := run.env, Analysing(c, run, cfg), ReportAt(c, run, cfg);
            if ms == [] then
              && report.trace == NOTHING
              && report.result.status == QuietStatus(c, run, cfg)
              && report.store == (if env.recordRunFails then c else Ended(Started(c, env), report.result, env))
              && (!env.recordRunFails ==> report.result.runID == RunId(c.nextID + 1))
            else
              var r := Analysed(Started(c, env), RunId(c.nextID + 1), AccountsFailed(c, run, cfg),
                                ms, run.opts, cfg, env);
              !env.recordRunFails && report == r.(store := Ended(r.store, r.result, env))
  {
    hide Since, Ended, Started, Analysed, RunId, FetchPool.Fresh, FetchPool.ErrorsByAccount, FetchPool.Flattened;
    if !run.env.recordRunFails { StartedSame(c, run.opts, cfg, run.env); }
    NothingNew(c, run.opts, run.env);
  }

  /** The messages of the ledger after a run, as far as one key is concerned. */
  lemma {:induction false} LedgerExact(c: Contents, run: Invocation, cfg: Config, k: MessageKey)
    ensures var c' := ReportAt(c, run, cfg).store;
            var ms := Analysing(c, run, cfg);
            var classes := Overridden(map[], OutcomeOf(ms, cfg, run.env).valid);
            var r := if Recording(c, run, cfg) then Recorder(ms, k, classes, run.env) else None;
            && (k in c'.messages <==> k in c.messages || r.Some?)
            && (k in c.messages ==> c'.messages[k] == c.messages[k])
            && (k !in c.messages && r.Some? ==>
                  c'.messages[k] == MessageRecord(RunId(c.nextID + 1), ms[r.value], classes[k], cfg,
                                                  run.env.processedAt(r.value)))
  {
    hide OutcomeOf, Ended, Started, Analysed, Analysing, MessageRecord, RunId, RunReport;
    var env, id := run.env, RunId(c.nextID + 1);
    RunShape(c, run, cfg);
    if !env.recordRunFails {
      var c1, ms := Started(c, env), Analysing(c, run, cfg);
      StartedSame(c, run.opts, cfg, env);
      if ms == [] {
        FinishedSame(c1, ReportAt(c, run, cfg).result, env);
      } else {
        var r := Analysed(c1, id, AccountsFailed(c, run, cfg), ms, run.opts, cfg, env);
        FinishedSame(r.store, r.result, env);
        AnalysedStore(c1, id, AccountsFailed(c, run, cfg), ms, run, cfg);
        MessagesRecordedExact(c1, id, ms, k, Overridden(map[], OutcomeOf(ms, cfg, env).valid), cfg, env);
      }
    }
  }

  /**
    Without failing store writes, a run adds exactly the keys it analysed and found valid,
    and those only if it gets past delivery in stateful mode.
   */
  lemma {:induction false} LedgerDelta(c: Contents, run: Invocation, cfg: Config, k: MessageKey)
    requires forall i :: !run.env.messageFails(i)
    ensures var ms := Analysing(c, run, cfg);
            k in ReportAt(c, run, cfg).store.messages <==>
            k in c.messages ||
            (Recording(c, run, cfg) && k in MessageKeys(ms) && k in KeySet(OutcomeOf(ms, cfg, run.env).valid))
  {
    hide OutcomeOf, Analysing, MessageRecord, RunReport;
    LedgerExact(c, run, cfg, k);
    var ms := Analysing(c, run, cfg);
    var cs := OutcomeOf(ms, cfg, run.env).valid;
    OverriddenExact(map[], cs);
    RecorderOfKey(ms, k, Overridden(map[], cs), run.env);
  }

  lemma {:induction false} RecorderOfKey(ms: seq<Message>, k: MessageKey, classes: map<MessageKey, Classification>,
                                         env: Env)
    requires forall i :: !env.messageFails(i)
    ensures Recorder(ms, k, classes, env).Some? <==> k in MessageKeys(ms) && k in classes
  {
    if k in MessageKeys(ms) {
      var i :| 0 <= i < |ms| && MessageKeys(ms)[i] == k;
      assert ms[i].Key() == k;
    }
    var r := Recorder(ms, k, classes, env);
    if r.Some? { assert MessageKeys(ms)[r.value] == k; }
  }

  /** The messages a run asks the model to classify. */
  function Requested(t: Trace): seq<MessageKey> {
    if t.requests != [] && t.requests[0].ClassifyRequest? then t.requests[0].messages else []
  }

  /**
    The model sees exactly the fetched keys that the ledger does not have, or all of them
    when deduplication is off; it is asked at most twice, and the second request asks for
    no message.
   */
  lemma {:induction false} RequestedExact(c: Contents, run: Invocation, cfg: Config, k: MessageKey)
    ensures var t := ReportAt(c, run, cfg).trace;
            && (k in Requested(t) <==>
                k in MessageKeys(FetchedMessages(c, run, cfg)) && (Dedups(run.opts, run.env) ==> k !in c.messages))
            && |t.requests| <= 2
            && (|t.requests| == 2 ==> t.requests[1].RepairRequest?)
  {
    hide OutcomeOf, Ended, Started, FetchedMessages, RunId, RunReport, Requests;
    RunShape(c, run, cfg);
    var fetched, ms := FetchedMessages(c, run, cfg), Analysing(c, run, cfg);
    FetchPool.FreshMembers(fetched, c.messages.Keys);
    KeyOfMessage(fetched, k);
    KeyOfMessage(ms, k);
    RequestShape(ms, cfg, run.env);
  }

  lemma {:induction false} KeyOfMessage(ms: seq<Message>, k: MessageKey)
    ensures k in MessageKeys(ms) <==> exists m :: m in ms && m.Key() == k
  {
    if k in MessageKeys(ms) {
      var i :| 0 <= i < |ms| && MessageKeys(ms)[i] == k;
      assert ms[i] in ms && ms[i].Key() == k;
    }
    if exists m :: m in ms && m.Key() == k {
      var i :| 0 <= i < |ms| && ms[i].Key() == k;
      assert MessageKeys(ms)[i] == k;
    }
  }

  lemma {:induction false} RequestShape(ms: seq<Message>, cfg: Config, env: Env)
    ensures var q := Requests(ms, cfg, env);
            && 1 <= |q| <= 2 && q[0] == ClassifyRequest(cfg.Labels(), MessageKeys(ms))
            && (|q| == 2 ==> q[1].RepairRequest?)
  {
    hide RepairSent, ResponseParser.ParsedResponse;
  }

  // ---------------------------------------------------------------------------
  // The run ledger and the statuses
  // ---------------------------------------------------------------------------

  predicate Terminal(s: RunStatus) {
    s == Completed || s == Degraded || s == IngestFailed || s == Partial || s == PartiallyClassified
  }

  /** One entry more, finished with what the run returned unless the closing write failed. */
  ghost predicate EntryAdded(before: seq<Run>, after: seq<Run>, result: Result, env: Env) {
    && |after| == |before| + 1 && after[..|before|] == before
    && var entry := after[|before|];
       && entry.id == result.runID == RunId(|after|)
       && entry.startedAt == env.startedAt
       && (if env.finishFails then entry == Run(entry.id, env.startedAt, None, Running, 0, None)
           else
             && entry.finishedAt == Some(env.finishedAt)
             && entry.status == result.status
             && entry.messageCount == result.totalFetched
             && entry.error == result.err)
  }

  /**
    A run adds one entry, the last, and leaves the others alone. Unless the closing write
    fails, the entry is finished, once, with the status, count and error the run returns.
   */
  lemma {:induction false} RunRecordedOnce(c: Contents, run: Invocation, cfg: Config)
    requires Numbered(c)
    ensures var report := ReportAt(c, run, cfg);
            && Numbered(report.store)
            && Terminal(report.result.status)
            && (if run.env.recordRunFails then report.store == c
                else EntryAdded(c.runs, report.store.runs, report.result, run.env))
  {
    hide OutcomeOf, Analysed, Analysing, RunId, RunReport, Ended, Started, EntryAdded, Numbered, Terminal;
    var env, id, report := run.env, RunId(c.nextID + 1), ReportAt(c, run, cfg);
    RunShape(c, run, cfg);
    RunTerminal(c, run, cfg);
    if !env.recordRunFails {
      var c1, ms := Started(c, env), Analysing(c, run, cfg);
      if ms == [] {
        ClosingEntry(c, c1, report.result, env);
      } else {
        AnalysedStore(c1, id, AccountsFailed(c, run, cfg), ms, run, cfg);
        AnalysedId(c1, id, AccountsFailed(c, run, cfg), ms, run, cfg);
        var r := Analysed(c1, id, AccountsFailed(c, run, cfg), ms, run.opts, cfg, env);
        ClosingEntry(c, r.store, report.result, env);
      }
    }
  }

  lemma {:induction false} ClosingEntry(c: Contents, before: Contents, r: Result, env: Env)
    requires Numbered(c) && r.runID == RunId(c.nextID + 1)
    requires before.runs == Started(c, env).runs && before.nextID == Started(c, env).nextID
    ensures Numbered(Ended(before, r, env)) && EntryAdded(c.runs, Ended(before, r, env).runs, r, env)
  {
    hide RunId, WithFinish;
    RecordNumbered(c, Run("", env.startedAt, None, Running, 0, None), env.startedAt);
    FinishLast(before, r.status, r.totalFetched, r.err, env.finishedAt);
    assert before.runs[..|c.runs|] == c.runs;
  }

  lemma {:induction false} AnalysedId(c: Contents, id: string, accountErrors: bool, ms: seq<Message>, run: Invocation,
                                      cfg: Config)
    ensures Analysed(c, id, accountErrors, ms, run.opts, cfg, run.env).result.runID == id
  {
    hide OutcomeOf, Requests, Unclassified, AnalysisFailures, FinalStatus;
  }

  lemma {:induction false} RunTerminal(c: Contents, run: Invocation, cfg: Config)
    ensures Terminal(ReportAt(c, run, cfg).result.status)
  {
    hide OutcomeOf, Requests, Unclassified, AnalysisFailures, Since, WithFinish, WithRun;
  }

  lemma {:induction false} FailuresCounted(ms: seq<Message>, cfg: Config, env: Env)
    requires !OutcomeOf(ms, cfg, env).hardError
    ensures AnalysisFailures(ms, OutcomeOf(ms, cfg, env)) > 0 <==> OutcomeOf(ms, cfg, env).failed != []
    ensures var failed := KeySet(OutcomeOf(ms, cfg, env).failed);
            && KeySet(OutcomeOf(ms, cfg, env).valid) !! failed
            && AnalysisFailures(ms, OutcomeOf(ms, cfg, env)) == Counting.Count(MessageKeys(ms), Among(failed))
    ensures Distinct(MessageKeys(ms)) ==>
            AnalysisFailures(ms, OutcomeOf(ms, cfg, env)) == |OutcomeOf(ms, cfg, env).failed|
  {
    hide Accounted, ResponseParser.ParsedResponse, Counting.Count, Entries, ClassMap, Distinct, KeySet, Among;
    var first := env.replies(0).value;
    RepairAccounting(MessageKeys(ms), first, env.replies(1), env.decode, cfg.Labels(), cfg.maxAttempts);
    var parsed := ResponseParser.ParsedResponse(first, env.decode, cfg.Labels());
    AccountedDisjoint(MessageKeys(ms), parsed, OutcomeOf(ms, cfg, env));
    AnalysesShown(ms, parsed, OutcomeOf(ms, cfg, env));
  }

  /**
    The status of every run. With messages to analyse: degraded without a delivered digest
    or without any valid analysis; else partially classified if an analysis failed; else
    partial if an account failed; else completed. Without: completed, unless the run did
    not get to fetching or came back empty-handed from failing accounts.
   */
  lemma {:induction false} StatusExactly(c: Contents, run: Invocation, cfg: Config)
    ensures var ms := Analysing(c, run, cfg);
            var o := OutcomeOf(ms, cfg, run.env);
            ReportAt(c, run, cfg).result.status ==
              if ms == [] then QuietStatus(c, run, cfg)
              else if !Delivers(run) || o.hardError || o.valid == [] then Degraded
              else if o.failed != [] then PartiallyClassified
              else if AccountsFailed(c, run, cfg) then Partial
              else Completed
  {
    hide OutcomeOf, Analysing, RunId, RunReport, Ended, Started, AnalysisFailures, Unclassified, Requests,
      MessagesRecorded, FlagsRecorded;
    RunShape(c, run, cfg);
    var ms := Analysing(c, run, cfg);
    if ms != [] && !OutcomeOf(ms, cfg, run.env).hardError { FailuresCounted(ms, cfg, run.env); }
  }

  /**
    When the classification itself degrades a run: it had no answer, or the first reply
    delivered nothing valid and no repair cleanly delivered more.
   */
  lemma {:induction false} DegradedExactly(c: Contents, run: Invocation, cfg: Config)
    ensures var ms, env := Analysing(c, run, cfg), run.env;
            var first := env.replies(0);
            ReportAt(c, run, cfg).result.status == Degraded <==>
              ms != []
              && (|| !Delivers(run)
                  || first == None
                  || (ResponseParser.ParsedResponse(first.value, env.decode, cfg.Labels()).classifications == []
                      && !Repaired(MessageKeys(ms), first.value, env.replies(1), env.decode, cfg.Labels(),
                                   cfg.maxAttempts)))
  {
    hide RunReport, Analysing, ResponseParser.ParsedResponse, ClassifyOutcome, Repaired, FetchedMessages;
    var ms, env := Analysing(c, run, cfg), run.env;
    StatusExactly(c, run, cfg);
    NothingValidExactly(MessageKeys(ms), env.replies(0), env.replies(1), env.decode, cfg.Labels(), cfg.maxAttempts);
  }

  /**
    The counts a run returns: all its messages are accounted for as classified or failed,
    and for distinct messages the failed analyses are those of the classifier.
   */
  lemma {:induction false} CountsExactly(c: Contents, run: Invocation, cfg: Config)
    requires Analysing(c, run, cfg) != []
    ensures var ms, result := Analysing(c, run, cfg), ReportAt(c, run, cfg).result;
            var o := OutcomeOf(ms, cfg, run.env);
            && result.totalFetched == result.totalClassified == |ms|
            && result.failedCount + Counting.Count(MessageKeys(ms), Among(KeySet(o.valid))) == |ms|
            && (Distinct(MessageKeys(ms)) && !o.hardError ==> result.analysisFailedCount == |o.failed|)
            && (o.hardError ==> result.analysisFailedCount == 0)
  {
    hide OutcomeOf, Analysing, RunId, RunReport, Ended, Started, Requests, MessagesRecorded, FlagsRecorded,
      Counting.Count, Entries, ClassMap, Accounted, FinalStatus;
    RunShape(c, run, cfg);
    var ms := Analysing(c, run, cfg);
    var o := OutcomeOf(ms, cfg, run.env);
    UnclassifiedKeys(ms, o);
    if o.hardError { HardErrorCounts(ms, cfg, run.env); } else { FailuresCounted(ms, cfg, run.env); }
  }

  /** What the first reply parses to, if there is one. */
  function FirstReply(run: Invocation, cfg: Config): Option<ResponseParser.Parsed> {
    match run.env.replies(0)
    case None => None
    case Some(raw) => Some(ResponseParser.ParsedResponse(raw, run.env.decode, cfg.Labels()))
  }

  /**
    Every analysed message is counted as classified or as a failed analysis exactly when
    the classifier accounts for each of them: there is a first reply, and it has errors or
    covers the request.
   */
  lemma {:induction false} CountsCoverExactly(c: Contents, run: Invocation, cfg: Config)
    requires Analysing(c, run, cfg) != []
    ensures var ms, result := Analysing(c, run, cfg), ReportAt(c, run, cfg).result;
            var o, first := OutcomeOf(ms, cfg, run.env), FirstReply(run, cfg);
            && (result.failedCount == result.analysisFailedCount <==>
                  forall k :: k in MessageKeys(ms) ==> AccountedOnce(k, o))
            && (result.failedCount == result.analysisFailedCount <==>
                  first.Some?
                  && (first.value.error.Some?
                      || forall k :: k in MessageKeys(ms) ==> k in KeySet(first.value.classifications)))
  {
    hide OutcomeOf, Analysing, RunId, RunReport, Ended, Started, Requests, MessagesRecorded, FlagsRecorded,
      Counting.Count, Entries, ClassMap, Accounted, FinalStatus, MessageKeys;
    RunShape(c, run, cfg);
    var ms := Analysing(c, run, cfg);
    var o := OutcomeOf(ms, cfg, run.env);
    var keys := MessageKeys(ms);
    UnclassifiedKeys(ms, o);
    if o.hardError {
      HardErrorCounts(ms, cfg, run.env);
      assert KeySet([]) == {};
      NoneAmong(keys);
    } else {
      FailuresCounted(ms, cfg, run.env);
    }
    CoveredCounts(keys, KeySet(o.valid), KeySet(o.failed));
    CoveredByReply(ms, run, cfg);
  }

  lemma {:induction false} CoveredByReply(ms: seq<Message>, run: Invocation, cfg: Config)
    requires ms != []
    ensures var o, first := OutcomeOf(ms, cfg, run.env), FirstReply(run, cfg);
            (forall k :: k in MessageKeys(ms) ==> AccountedOnce(k, o)) <==>
              first.Some?
              && (first.value.error.Some?
                  || forall k :: k in MessageKeys(ms) ==> k in KeySet(first.value.classifications))
  {
    hide ResponseParser.ParsedResponse, Accounted, AccountedOnce, KeySet;
    var env, keys := run.env, MessageKeys(ms);
    assert keys[0] in keys;
    match env.replies(0)
    case None => NotAccounted(keys[0]);
    case Some(raw) => RepairAccounting(keys, raw, env.replies(1), env.decode, cfg.Labels(), cfg.maxAttempts);
  }

  lemma {:induction false} NotAccounted(k: MessageKey)
    ensures !AccountedOnce(k, Outcome([], [], [], true))
  {
  }

  lemma {:induction false} NoneAmong(keys: seq<MessageKey>)
    ensures Counting.Count(keys, Among({})) == 0
  {
    if keys != [] { NoneAmong(keys[..|keys| - 1]); }
  }

  lemma {:induction false} AccountedDisjoint(keys: seq<MessageKey>, first: ResponseParser.Parsed, o: Outcome)
    requires Accounted(keys, first, o)
    ensures KeySet(o.valid) !! KeySet(o.failed)
  {
  }

  lemma {:induction false} UnclassifiedKeys(ms: seq<Message>, o: Outcome)
    ensures Unclassified(ms, o) + Counting.Count(MessageKeys(ms), Among(KeySet(o.valid))) == |ms|
    ensures |MessageKeys(ms)| == |ms|
  {
    hide Counting.Count, Entries, ClassMap, KeySet;
    ClassifiedByKey(ms, o, KeySet(o.valid));
    ClassifiedFailed(Entries(ms, ClassMap(o.valid, o.failed, o.errors)), KeySet(o.valid), "");
  }

  /** Of disjoint sets, the one holds exactly the keys outside the other when the counts say so. */
  lemma {:induction false} CoveredCounts(keys: seq<MessageKey>, valid: set<MessageKey>, failed: set<MessageKey>)
    requires valid !! failed
    ensures Counting.Count(keys, Among(failed)) + Counting.Count(keys, Among(valid)) <= |keys|
    ensures Counting.Count(keys, Among(failed)) + Counting.Count(keys, Among(valid)) == |keys| <==>
            forall k :: k in keys ==> (k in valid) != (k in failed)
  {
    if keys != [] {
      var init, last := keys[..|keys| - 1], keys[|keys| - 1];
      CoveredCounts(init, valid, failed);
      assert forall k :: k in keys <==> k in init || k == last;
    }
  }

  lemma {:induction false} HardErrorCounts(ms: seq<Message>, cfg: Config, env: Env)
    requires OutcomeOf(ms, cfg, env).hardError
    ensures AnalysisFailures(ms, OutcomeOf(ms, cfg, env)) == 0
    ensures OutcomeOf(ms, cfg, env) == Outcome([], [], [], true)
  {
    hide ResponseParser.ParsedResponse, Counting.Count, Entries, ClassMap, Missing, Merged;
    assert OutcomeOf(ms, cfg, env) == Outcome([], [], [], true);
    NothingFailed(ms);
  }

  lemma {:induction false} NothingFailed(ms: seq<Message>)
    ensures Counting.Count(Entries(ms, ClassMap([], [], [])), HasAnalysisError) == 0
  {
    hide Counting.Count, ClassMap;
    ClassMapKeys([], [], []);
    assert KeySet([]) == {};
    CountPositive(Entries(ms, ClassMap([], [], [])), HasAnalysisError);
  }

  /**
    What leaves the program: flags for the valid classifications, and one digest, noted in
    the store with whether it was delivered; nothing of that in a dry run.
   */
  lemma {:induction false} DeliveryExact(c: Contents, run: Invocation, cfg: Config)
    ensures var ms, report := Analysing(c, run, cfg), ReportAt(c, run, cfg);
            var o := OutcomeOf(ms, cfg, run.env);
            var acts := ms != [] && run.env.rendered.Some? && !run.opts.dryRun;
            && report.trace.sent == (if acts then [run.env.rendered.value] else [])
            && report.trace.flagged == (if acts && !o.hardError then o.valid else [])
            && report.store.digests == c.digests + (
                 if acts && !run.env.digestRecordFails
                 then [DigestRecord(RunId(c.nextID + 1), run.env.delivered, run.env.rendered.value)] else [])
  {
    hide RunReport, OutcomeOf, Analysing, Analysed, Ended, Started, RunId;
    RunShape(c, run, cfg);
    if !run.env.recordRunFails {
      var c1, id, ms := Started(c, run.env), RunId(c.nextID + 1), Analysing(c, run, cfg);
      StartedSame(c, run.opts, cfg, run.env);
      AnalysedActs(c1, id, AccountsFailed(c, run, cfg), ms, run, cfg);
      var r := Analysed(c1, id, AccountsFailed(c, run, cfg), ms, run.opts, cfg, run.env);
      FinishedSame(r.store, r.result, run.env);
      FinishedSame(c1, ReportAt(c, run, cfg).result, run.env);
    }
  }

  /**
    Only analysed messages are flagged exactly when nothing is flagged at all, or the keys
    accepted from the replies were all asked for.
   */
  lemma {:induction false} FlaggedExactly(c: Contents, run: Invocation, cfg: Config)
    ensures var ms, flagged := Analysing(c, run, cfg), ReportAt(c, run, cfg).trace.flagged;
            var env := run.env;
            var replied := RepliedKeys(MessageKeys(ms), env.replies(0), env.replies(1), env.decode, cfg.Labels(),
                                       cfg.maxAttempts);
            (forall f :: f in flagged ==> f.key in MessageKeys(ms)) <==>
              (ms == [] || env.rendered == None || run.opts.dryRun || forall k :: k in replied ==> k in MessageKeys(ms))
  {
    hide RunReport, Analysing, ResponseParser.ParsedResponse, RepliedKeys, ClassifyOutcome;
    var ms, env := Analysing(c, run, cfg), run.env;
    DeliveryExact(c, run, cfg);
    ValidKeysExactly(MessageKeys(ms), env.replies(0), env.replies(1), env.decode, cfg.Labels(), cfg.maxAttempts);
    NothingValidExactly(MessageKeys(ms), env.replies(0), env.replies(1), env.decode, cfg.Labels(), cfg.maxAttempts);
    InKeySet(OutcomeOf(ms, cfg, env).valid, MessageKeys(ms));
  }

  lemma {:induction false} InKeySet(cs: seq<Classification>, keys: seq<MessageKey>)
    ensures (forall c :: c in cs ==> c.key in keys) <==> forall k :: k in KeySet(cs) ==> k in keys
  {
    if forall k :: k in KeySet(cs) ==> k in keys {
      forall c | c in cs
        ensures c.key in keys
      {
        assert c.key in KeySet(cs);
      }
    }
  }

  lemma {:induction false} AnalysedActs(c: Contents, id: string, accountErrors: bool, ms: seq<Message>,
                                        run: Invocation, cfg: Config)
    ensures var r := Analysed(c, id, accountErrors, ms, run.opts, cfg, run.env);
            var acts := run.env.rendered.Some? && !run.opts.dryRun;
            && r.trace.sent == (if acts then [run.env.rendered.value] else [])
            && r.trace.flagged == (if acts && !OutcomeOf(ms, cfg, run.env).hardError
                                   then OutcomeOf(ms, cfg, run.env).valid else [])
            && r.store.digests == c.digests + (
                 if acts && !run.env.digestRecordFails
                 then [DigestRecord(id, run.env.delivered, run.env.rendered.value)] else [])
  {
    hide OutcomeOf, Requests, Unclassified, AnalysisFailures, MessagesRecorded, FlagsRecorded, FinalStatus;
    var env := run.env;
    if Delivers(run) {
      var o := OutcomeOf(ms, cfg, env);
      var noted := if run.opts.dryRun then c else DigestRecorded(c, id, true, env.rendered.value, env);
      RecordedFrame(noted, id, ms, Overridden(map[], o.valid), cfg, env);
      FlagsRecordedExact(MessagesRecorded(noted, id, ms, Overridden(map[], o.valid), cfg, env), o.valid, cfg, env);
    }
  }

  // ---------------------------------------------------------------------------
  // Every sequence of runs
  // ---------------------------------------------------------------------------

  lemma {:induction false} HistoryNumbered(cfg: Config, stores: seq<Contents>, runs: seq<Invocation>, k: nat)
    requires IsHistory(cfg, stores, runs) && k < |stores|
    ensures Numbered(stores[k])
  {
    hide RunReport;
    if k > 0 {
      HistoryNumbered(cfg, stores, runs, k - 1);
      RunRecordedOnce(stores[k - 1], runs[k - 1], cfg);
    }
  }

  /**
    While a run collects its highlights it is the last, unfinished entry of the ledger, so
    the store never returns an earlier digest to compare with.
   */
  lemma {:induction false} NoPreviousDigest(cfg: Config, stores: seq<Contents>, runs: seq<Invocation>, k: nat,
                                            now: int, prior: Option<RunDigestSummary>)
    requires IsHistory(cfg, stores, runs) && k < |runs|
    requires IsPreviousSummary(Started(stores[k], runs[k].env), RunId(stores[k].nextID + 1), now, prior)
    ensures prior == None
  {
    hide RunId, RunIndex, RunReport;
    var c, env := stores[k], runs[k].env;
    HistoryNumbered(cfg, stores, runs, k);
    RecordNumbered(c, Run("", env.startedAt, None, Running, 0, None), env.startedAt);
    NumberedIndex(Started(c, env), |c.runs|);
  }

  /** Records are never lost and never overwritten, whatever fails. */
  lemma {:induction false} RecordsStay(cfg: Config, stores: seq<Contents>, runs: seq<Invocation>, i: nat, j: nat,
                                       k: MessageKey)
    requires IsHistory(cfg, stores, runs) && i <= j < |stores| && k in stores[i].messages
    ensures k in stores[j].messages && stores[j].messages[k] == stores[i].messages[k]
  {
    hide RunReport, Recording, Recorder, MessageRecord, Analysing, OutcomeOf;
    if i < j {
      RecordsStay(cfg, stores, runs, i, j - 1, k);
      LedgerExact(stores[j - 1], runs[j - 1], cfg, k);
    }
  }

  /**
    Once a key is in the ledger no later run with deduplication asks the model about it,
    and its first record survives every run.
   */
  lemma {:induction false} NeverAskedAgain(cfg: Config, stores: seq<Contents>, runs: seq<Invocation>, i: nat, j: nat,
                                           k: MessageKey)
    requires IsHistory(cfg, stores, runs) && i <= j < |runs|
    requires k in stores[i].messages && Dedups(runs[j].opts, runs[j].env)
    ensures k !in Requested(ReportAt(stores[j], runs[j], cfg).trace)
    ensures k in stores[j + 1].messages && stores[j + 1].messages[k] == stores[i].messages[k]
  {
    hide RunReport, Requested;
    RecordsStay(cfg, stores, runs, i, j, k);
    RecordsStay(cfg, stores, runs, i, j + 1, k);
    RequestedExact(stores[j], runs[j], cfg, k);
  }

  /** Nor does any later run with deduplication show a recorded message in its digest. */
  lemma {:induction false} NeverShownAgain(cfg: Config, stores: seq<Contents>, runs: seq<Invocation>, i: nat, j: nat,
                                           k: MessageKey, d: Digest)
    requires IsHistory(cfg, stores, runs) && i <= j < |runs|
    requires k in stores[i].messages && Dedups(runs[j].opts, runs[j].env)
    requires IsRunDigest(d, Started(stores[j], runs[j].env), runs[j].opts, cfg, runs[j].env)
    ensures forall e :: e in d.messages ==> e.classification.key != k
  {
    hide RunReport, OutcomeOf, Since, Entries, ClassMap, LatestCompletion;
    RecordsStay(cfg, stores, runs, i, j, k);
    var run := runs[j];
    var c := Started(stores[j], run.env);
    StartedSame(stores[j], run.opts, cfg, run.env);
    var results := run.env.fetch(Since(c, run.opts, cfg, run.env).value);
    var fetched := FetchPool.Flattened(results);
    var ms := NewMessages(c, fetched, run.opts, run.env);
    FetchPool.FreshMembers(fetched, c.messages.Keys);
    EntriesAligned(ms, OutcomeOf(ms, cfg, run.env));
    DigestMessages(d, ms, OutcomeOf(ms, cfg, run.env), results, FetchPool.ErrorsByAccount(results));
    forall e | e in d.messages
      ensures e.classification.key != k
    {
      var n :| 0 <= n < |d.messages| && d.messages[n] == e;
      assert ms[n] in ms;
    }
  }

  lemma {:induction false} DigestMessages(d: Digest, ms: seq<Message>, o: Outcome,
                                          results: seq<FetchPool.FetchResult>,
                                          errors: map<string, FetchPool.FetchError>)
    requires IsDigest(d, ms, o, results, errors)
    ensures d.messages == Entries(ms, ClassMap(o.valid, o.failed, o.errors))
  {
  }

  /**
    A key without a valid analysis is not recorded, so the next run that fetches it asks
    the model about it again.
   */
  lemma {:induction false} FailedStaysEligible(cfg: Config, stores: seq<Contents>, runs: seq<Invocation>, j: nat,
                                               k: MessageKey)
    requires IsHistory(cfg, stores, runs) && j + 1 < |runs| && k !in stores[j].messages
    requires k !in KeySet(OutcomeOf(Analysing(stores[j], runs[j], cfg), cfg, runs[j].env).valid)
    requires k in MessageKeys(FetchedMessages(stores[j + 1], runs[j + 1], cfg))
    ensures k !in stores[j + 1].messages
    ensures k in Requested(ReportAt(stores[j + 1], runs[j + 1], cfg).trace)
  {
    hide RunReport, Requested, Analysing, OutcomeOf, MessageRecord, FetchedMessages;
    LedgerExact(stores[j], runs[j], cfg, k);
    OverriddenExact(map[], OutcomeOf(Analysing(stores[j], runs[j], cfg), cfg, runs[j].env).valid);
    RequestedExact(stores[j + 1], runs[j + 1], cfg, k);
  }

  lemma {:induction false} EntriesStay(cfg: Config, stores: seq<Contents>, runs: seq<Invocation>, i: nat, j: nat)
    requires IsHistory(cfg, stores, runs) && i <= j < |stores|
    ensures |stores[i].runs| <= |stores[j].runs| && stores[j].runs[..|stores[i].runs|] == stores[i].runs
  {
    hide RunReport;
    if i < j {
      EntriesStay(cfg, stores, runs, i, j - 1);
      HistoryNumbered(cfg, stores, runs, j - 1);
      RunRecordedOnce(stores[j - 1], runs[j - 1], cfg);
      assert stores[j].runs[..|stores[i].runs|] == stores[j - 1].runs[..|stores[i].runs|];
    }
  }

  /**
    In the ledger of any later moment a recorded run has one entry, under its own ID, with
    the terminal status it returned, unless its closing write failed: then it stays running.
   */
  lemma {:induction false} FinishedForGood(cfg: Config, stores: seq<Contents>, runs: seq<Invocation>, i: nat, j: nat)
    requires IsHistory(cfg, stores, runs) && i < j < |stores| && !runs[i].env.recordRunFails
    ensures var at, result := |stores[i].runs|, ReportAt(stores[i], runs[i], cfg).result;
            && at < |stores[j].runs|
            && (forall p :: 0 <= p < |stores[j].runs| ==> (stores[j].runs[p].id == result.runID <==> p == at))
            && Terminal(result.status)
            && stores[j].runs[at].status == (if runs[i].env.finishFails then Running else result.status)
            && stores[j].runs[at].finishedAt == (if runs[i].env.finishFails then None else Some(runs[i].env.finishedAt))
  {
    hide RunReport, RunId;
    HistoryNumbered(cfg, stores, runs, i);
    HistoryNumbered(cfg, stores, runs, j);
    RunRecordedOnce(stores[i], runs[i], cfg);
    EntriesStay(cfg, stores, runs, i + 1, j);
    var at := |stores[i].runs|;
    assert stores[j].runs[at] == stores[i + 1].runs[at];
    forall p | 0 <= p < |stores[j].runs| && stores[j].runs[p].id == RunId(at + 1)
      ensures p == at
    {
      RunIdInjective(p + 1, at + 1);
    }
  }

  // ---------------------------------------------------------------------------
  // The watermark
  // ---------------------------------------------------------------------------

  /** The run is entered in the ledger as completed. */
  predicate Succeeds(c: Contents, run: Invocation, cfg: Config) {
    && !run.env.recordRunFails && !run.env.finishFails
    && ReportAt(c, run, cfg).result.status == Completed
  }

  lemma {:induction false} WatermarkStep(c: Contents, run: Invocation, cfg: Config)
    requires Numbered(c)
    ensures var before, after := LatestCompletion(c.runs), LatestCompletion(ReportAt(c, run, cfg).store.runs);
            after == if Succeeds(c, run, cfg) && (before == None || run.env.finishedAt > before.value)
                     then Some(run.env.finishedAt) else before
  {
    hide RunReport, LatestCompletion, RunId;
    RunRecordedOnce(c, run, cfg);
    if !run.env.recordRunFails {
      var after := ReportAt(c, run, cfg).store.runs;
      assert after == c.runs + [after[|c.runs|]];
      LatestAppend(c.runs, after[|c.runs|]);
    }
  }

  /** The watermark is the latest finish of the successful runs so far; without one there is none. */
  lemma {:induction false} WatermarkExact(cfg: Config, stores: seq<Contents>, runs: seq<Invocation>, k: nat)
    requires IsHistory(cfg, stores, runs) && k < |stores|
    ensures var w := LatestCompletion(stores[k].runs);
            && (w == None <==> forall i :: 0 <= i < k ==> !Succeeds(stores[i], runs[i], cfg))
            && (w.Some? ==> exists i :: 0 <= i < k && Succeeds(stores[i], runs[i], cfg)
                                        && w.value == runs[i].env.finishedAt)
            && (w.Some? ==> forall i :: 0 <= i < k && Succeeds(stores[i], runs[i], cfg) ==>
                              runs[i].env.finishedAt <= w.value)
  {
    hide RunReport, LatestCompletion, Succeeds;
    if k == 0 {
      assert LatestCompletion([]) == None;
    } else {
      WatermarkExact(cfg, stores, runs, k - 1);
      HistoryNumbered(cfg, stores, runs, k - 1);
      WatermarkStep(stores[k - 1], runs[k - 1], cfg);
    }
  }

  lemma {:induction false} WatermarkNeverBack(cfg: Config, stores: seq<Contents>, runs: seq<Invocation>, i: nat,
                                              j: nat)
    requires IsHistory(cfg, stores, runs) && i <= j < |stores|
    ensures var a, b := LatestCompletion(stores[i].runs), LatestCompletion(stores[j].runs);
            a.Some? ==> b.Some? && a.value <= b.value
  {
    hide RunReport, LatestCompletion;
    EntriesStay(cfg, stores, runs, i, j);
    var n := |stores[i].runs|;
    assert stores[j].runs == stores[i].runs + stores[j].runs[n..];
    if LatestCompletion(stores[i].runs).Some? { LatestGrows(stores[i].runs, stores[j].runs[n..]); }
  }

  ghost predicate ClockForward(runs: seq<Invocation>) {
    forall i, j :: 0 <= i < j < |runs| ==> runs[i].env.finishedAt <= runs[j].env.finishedAt
  }

  /**
    Where a dynamic window starts: at the finish of the last successful run, or a day ago
    when there was none, but never earlier than the cap allows.
   */
  lemma {:induction false} WindowStart(cfg: Config, stores: seq<Contents>, runs: seq<Invocation>, k: nat)
    requires IsHistory(cfg, stores, runs) && k < |runs| && ClockForward(runs)
    requires runs[k].opts.window == None && !runs[k].env.windowFails
    ensures var env := runs[k].env;
            var since := Since(stores[k], runs[k].opts, cfg, env);
            var cap := env.capNow - (if cfg.maxWindow <= 0 then DEFAULT_MAX_WINDOW else cfg.maxWindow);
            && since.Some? && since.value >= cap
            && ((forall i :: 0 <= i < k ==> !Succeeds(stores[i], runs[i], cfg)) ==>
                  since.value == Later(env.sinceNow - FALLBACK_WINDOW, cap))
            && (forall i :: IsLastSuccess(cfg, stores, runs, i, k) ==>
                  since.value == Later(runs[i].env.finishedAt, cap))
  {
    hide RunReport, LatestCompletion, Succeeds;
    WatermarkExact(cfg, stores, runs, k);
    var w := LatestCompletion(stores[k].runs);
    forall i | IsLastSuccess(cfg, stores, runs, i, k)
      ensures w == Some(runs[i].env.finishedAt)
    {
      var m :| 0 <= m < k && Succeeds(stores[m], runs[m], cfg) && w.value == runs[m].env.finishedAt;
      assert m <= i;
    }
  }

  function Later(a: int, b: int): int { if a < b then b else a }

  /** Run `i` is the last successful one before run `k`. */
  ghost predicate IsLastSuccess(cfg: Config, stores: seq<Contents>, runs: seq<Invocation>, i: int, k: nat)
    requires |stores| == |runs| + 1 && k < |runs|
  {
    && 0 <= i < k && Succeeds(stores[i], runs[i], cfg)
    && forall j :: i < j < k ==> !Succeeds(stores[j], runs[j], cfg)
  }

  /** No keyword is recorded twice for a message. */
  lemma {:induction false} FlagsStayDistinct(cfg: Config, stores: seq<Contents>, runs: seq<Invocation>, k: nat)
    requires IsHistory(cfg, stores, runs) && k < |stores|
    ensures FlagsDistinct(stores[k].flags)
  {
    hide RunReport, Analysed, Analysing, Ended, Started, OutcomeOf, FlagsDistinct;
    if k == 0 {
      assert FlagsDistinct([]) by { NoFlags(); }
    } else {
      FlagsStayDistinct(cfg, stores, runs, k - 1);
      var c, run := stores[k - 1], runs[k - 1];
      RunShape(c, run, cfg);
      if !run.env.recordRunFails {
        var c1, id, ms := Started(c, run.env), RunId(c.nextID + 1), Analysing(c, run, cfg);
        StartedSame(c, run.opts, cfg, run.env);
        AnalysedStore(c1, id, AccountsFailed(c, run, cfg), ms, run, cfg);
        var r := Analysed(c1, id, AccountsFailed(c, run, cfg), ms, run.opts, cfg, run.env);
        FinishedSame(r.store, r.result, run.env);
        FinishedSame(c1, ReportAt(c, run, cfg).result, run.env);
      }
    }
  }

  /** No run saves a digest summary, so the store never has one to compare with. */
  lemma {:induction false} NoSummaries(cfg: Config, stores: seq<Contents>, runs: seq<Invocation>, k: nat)
    requires IsHistory(cfg, stores, runs) && k < |stores|
    ensures stores[k].summaries == map[]
  {
    hide RunReport, Analysed, Analysing, Ended, Started, OutcomeOf, FlagsDistinct;
    if k > 0 {
      NoSummaries(cfg, stores, runs, k - 1);
      var c, run := stores[k - 1], runs[k - 1];
      RunShape(c, run, cfg);
      if !run.env.recordRunFails {
        var c1, id, ms := Started(c, run.env), RunId(c.nextID + 1), Analysing(c, run, cfg);
        StartedSame(c, run.opts, cfg, run.env);
        AnalysedStore(c1, id, AccountsFailed(c, run, cfg), ms, run, cfg);
        var r := Analysed(c1, id, AccountsFailed(c, run, cfg), ms, run.opts, cfg, run.env);
        FinishedSame(r.store, r.result, run.env);
        FinishedSame(c1, ReportAt(c, run, cfg).result, run.env);
      }
    }
  }

  lemma NoFlags()
    ensures FlagsDistinct([])
  {
  }
}
