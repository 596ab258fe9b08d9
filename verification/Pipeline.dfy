/**
  `Pipeline.Run`: one run from fetching to the finished ledger entry. `Report` says what a
  run does to the store, what it returns and what leaves the program.
 */
module Pipeline {
  import opened Text
  import opened Decimal
  import opened Mail
  import opened Store
  import opened Classify
  import opened DigestData
  import DigestStats
  import Counting
  import FetchPool
  import ResponseParser

  /** Durations and times are in nanoseconds. */
  const HOUR := 3_600_000_000_000
  const FALLBACK_WINDOW := 24 * HOUR
  const DEFAULT_MAX_WINDOW := 72 * HOUR

  const DEFAULT_LABELS := ["Useful", "ToDelete", "Ads"]

  datatype Options = Options(window: Option<int>, forceReprocess: bool, dryRun: bool, stateless: bool)

  /** `excerpt` shortens a body for the ledger. */
  datatype Config = Config(customLabels: seq<string>, maxAttempts: int, maxWindow: int, excerpt: string -> string)
  {
    function Labels(): seq<string> { DEFAULT_LABELS + customLabels }
  }

  /**
    Everything a run does not decide itself: clock reads, which store calls fail, what the
    accounts deliver, what the model answers, whether rendering and delivery succeed.
   */
  datatype Env = Env(
    startedAt: int, recordRunFails: bool,
    windowFails: bool, sinceNow: int, capNow: int,
    fetch: int -> seq<FetchPool.FetchResult>, lookupFails: bool,
    replies: nat -> Option<string>, decode: string -> Option<ResponseParser.Wrapper>,
    rendered: Option<string>, delivered: bool, digestRecordFails: bool,
    messageFails: nat -> bool, processedAt: nat -> int,
    flagFails: nat -> bool, appliedAt: nat -> int,
    finishFails: bool, finishedAt: int)

  datatype Result = Result(
    runID: string, status: RunStatus, totalFetched: nat, totalClassified: nat, failedCount: nat,
    analysisFailedCount: nat, err: Option<RunError>)

  /** Requests to the model, classifications handed to the flag writer, digests handed to the channel. */
  datatype Trace = Trace(requests: seq<Request>, flagged: seq<Classification>, sent: seq<string>)

  const NOTHING := Trace([], [], [])

  datatype Report = Report(store: Contents, result: Result, trace: Trace)

  // ---------------------------------------------------------------------------
  // Specification
  // ---------------------------------------------------------------------------

  /** The start of the fetch window; `None` when the store cannot tell. */
  function Since(c: Contents, opts: Options, cfg: Config, env: Env): Option<int> {
    match opts.window
    case Some(w) => Some(env.sinceNow - w)
    case None =>
      if env.windowFails then None
      else
        var latest := LatestCompletion(c.runs);
        var since := if latest.Some? then latest.value else env.sinceNow - FALLBACK_WINDOW;
        var earliest := env.capNow - (if cfg.maxWindow <= 0 then DEFAULT_MAX_WINDOW else cfg.maxWindow);
        Some(if since < earliest then earliest else since)
  }

  /** Whether messages in the ledger are dropped. */
  predicate Dedups(opts: Options, env: Env) {
    !opts.forceReprocess && !env.lookupFails
  }

  function NewMessages(c: Contents, ms: seq<Message>, opts: Options, env: Env): seq<Message> {
    if Dedups(opts, env) then FetchPool.Fresh(ms, c.messages.Keys) else ms
  }

  function OutcomeOf(ms: seq<Message>, cfg: Config, env: Env): Outcome {
    ClassifyOutcome(MessageKeys(ms), env.replies(0), env.replies(1), env.decode, cfg.Labels(), cfg.maxAttempts)
  }

  /** The classification request and the repair request, if one is made. */
  function Requests(ms: seq<Message>, cfg: Config, env: Env): seq<Request> {
    var keys, labels, first := MessageKeys(ms), cfg.Labels(), env.replies(0);
    [ClassifyRequest(labels, keys)]
    + if first.Some? && RepairSent(keys, first.value, env.decode, labels, cfg.maxAttempts)
      then [RepairRequest(labels, first.value,
                          ResponseParser.ParsedResponse(first.value, env.decode, labels).error.value)]
      else []
  }

  function AnalysisFailures(ms: seq<Message>, o: Outcome): nat {
    Counting.Count(Entries(ms, ClassMap(o.valid, o.failed, o.errors)), HasAnalysisError)
  }

  function Unclassified(ms: seq<Message>, o: Outcome): nat {
    Counting.Count(Entries(ms, ClassMap(o.valid, o.failed, o.errors)), DigestStats.IsUnclassified(KeySet(o.valid)))
  }

  /** The status of a run that reaches its end. */
  function FinalStatus(accountErrors: bool, o: Outcome, analysisFailed: nat): RunStatus {
    if o.hardError || o.valid == [] then Degraded
    else if analysisFailed > 0 then PartiallyClassified
    else if accountErrors then Partial
    else Completed
  }

  function MessageRecord(id: string, m: Message, c: Classification, cfg: Config, at: int): ProcessedMessage {
    ProcessedMessage(id, m.account, m.uid, m.isRead, c.category, cfg.excerpt(m.body), at)
  }

  /** The ledger after recording those messages that have a classification. */
  function MessagesRecorded(c: Contents, id: string, ms: seq<Message>, classes: map<MessageKey, Classification>,
                            cfg: Config, env: Env): Contents {
    if ms == [] then c
    else
      var n := |ms| - 1;
      var before := MessagesRecorded(c, id, ms[..n], classes, cfg, env);
      if ms[n].Key() !in classes || env.messageFails(n) then before
      else
        var at := env.processedAt(n);
        WithMessage(before, MessageRecord(id, ms[n], classes[ms[n].Key()], cfg, at), at)
  }

  /** `ClassificationToFlag`: the keyword of a known label, or none. */
  function Keyword(c: Classification, labels: seq<string>): string {
    if c.category in labels then c.category else ""
  }

  function FlagsRecorded(c: Contents, cs: seq<Classification>, cfg: Config, env: Env): Contents {
    if cs == [] then c
    else
      var n := |cs| - 1;
      var before := FlagsRecorded(c, cs[..n], cfg, env);
      var keyword := Keyword(cs[n], cfg.Labels());
      if keyword == "" || env.flagFails(n) then before
      else WithFlag(before, FlagRecord(cs[n].key.account, cs[n].key.uid, keyword, env.appliedAt(n)), env.appliedAt(n))
  }

  function DigestRecorded(c: Contents, id: string, sent: bool, payload: string, env: Env): Contents {
    if env.digestRecordFails then c else c.(digests := c.digests + [DigestRecord(id, sent, payload)])
  }

  /** From the classification request on. */
  function Analysed(c: Contents, id: string, accountErrors: bool, ms: seq<Message>,
                    opts: Options, cfg: Config, env: Env): Report
  {
    var o := OutcomeOf(ms, cfg, env);
    var n := AnalysisFailures(ms, o);
    var result := Result(id, Degraded, |ms|, |ms|, Unclassified(ms, o), n, None);
    var trace := Trace(Requests(ms, cfg, env), [], []);
    if env.rendered == None then Report(c, result.(err := Some(RenderFailed)), trace)
    else
      var payload := env.rendered.value;
      var acted := if opts.dryRun then trace
                   else trace.(flagged := if o.hardError then [] else o.valid, sent := [payload]);
      if !opts.dryRun && !env.delivered
      then Report(DigestRecorded(c, id, false, payload, env), result.(err := Some(SendFailed)), acted)
      else
        var noted := if opts.dryRun then c else DigestRecorded(c, id, true, payload, env);
        var kept := if opts.stateless || o.hardError then noted
                    else
                      var recorded := MessagesRecorded(noted, id, ms, Overridden(map[], o.valid), cfg, env);
                      FlagsRecorded(recorded, o.valid, cfg, env);
        Report(kept, result.(status := FinalStatus(accountErrors, o, n)), acted)
  }

  /** From the fetch on. */
  function Processed(c: Contents, id: string, opts: Options, cfg: Config, env: Env): Report {
    match Since(c, opts, cfg, env)
    case None => Report(c, Result(id, IngestFailed, 0, 0, 0, 0, Some(WindowFailed)), NOTHING)
    case Some(since) =>
      var results := env.fetch(since);
      var errors, all := FetchPool.ErrorsByAccount(results), FetchPool.Flattened(results);
      if errors != map[] && all == []
      then Report(c, Result(id, IngestFailed, 0, 0, 0, 0, Some(AllAccountsFailed(|errors|))), NOTHING)
      else
        var ms := NewMessages(c, all, opts, env);
        if ms == [] then Report(c, Result(id, Completed, 0, 0, 0, 0, None), NOTHING)
        else Analysed(c, id, errors != map[], ms, opts, cfg, env)
  }

  function Started(c: Contents, env: Env): Contents {
    WithRun(c, Run("", env.startedAt, None, Running, 0, None), env.startedAt)
  }

  /** The store call that ends every run, with the status, count and error it returns. */
  function Ended(c: Contents, r: Result, env: Env): Contents {
    if env.finishFails then c else WithFinish(c, r.runID, r.status, r.totalFetched, r.err, env.finishedAt)
  }

  function RunReport(c: Contents, opts: Options, cfg: Config, env: Env): Report {
    if env.recordRunFails
    then Report(c, Result("", IngestFailed, 0, 0, 0, 0, Some(RecordRunFailed)), NOTHING)
    else
      var r := Processed(Started(c, env), RunId(c.nextID + 1), opts, cfg, env);
      r.(store := Ended(r.store, r.result, env))
  }

  /** The digest of a run that gets to one: of its new messages and their classification. */
  ghost predicate IsRunDigest(d: Digest, c: Contents, opts: Options, cfg: Config, env: Env) {
    && Since(c, opts, cfg, env).Some?
    && var results := env.fetch(Since(c, opts, cfg, env).value);
       var ms := NewMessages(c, FetchPool.Flattened(results), opts, env);
       IsDigest(d, ms, OutcomeOf(ms, cfg, env), results, FetchPool.ErrorsByAccount(results))
  }

  // ---------------------------------------------------------------------------
  // The program
  // ---------------------------------------------------------------------------

  class Pipeline {
    const cfg: Config
    const store: NoopStore
    /** The digests handed to the renderer. */
    var digests: seq<Digest>

    constructor (cfg: Config, store: NoopStore)
      ensures this.cfg == cfg && this.store == store && digests == []
    {
      this.cfg := cfg;
      this.store := store;
      digests := [];
    }

    method FetchWindow(opts: Options, env: Env) returns (since: Option<int>)
      ensures since == Since(store.Snapshot(), opts, cfg, env)
    {
      if opts.window.Some? { return Some(env.sinceNow - opts.window.value); }
      if env.windowFails { return None; }
      var last := store.GetLastSuccessfulRunTime();
      var start := env.sinceNow - FALLBACK_WINDOW;
      if last.Some? { start := last.value; }
      var maxWin := cfg.maxWindow;
      if maxWin <= 0 { maxWin := DEFAULT_MAX_WINDOW; }
      if start < env.capNow - maxWin { start := env.capNow - maxWin; }
      since := Some(start);
    }

    /** Without an answer from the store, nothing is filtered out. */
    method FilterProcessed(ms: seq<Message>, env: Env) returns (kept: seq<Message>)
      ensures kept == if env.lookupFails then ms else FetchPool.Fresh(ms, store.messages.Keys)
    {
      if env.lookupFails { return ms; }
      var keys: seq<MessageKey> := [];
      for i := 0 to |ms|
        invariant |keys| == i && forall k :: 0 <= k < i ==> keys[k] == ms[k].Key()
      {
        keys := keys + [ms[i].Key()];
      }
      var processed := store.AlreadyProcessed(keys);
      forall m | m in ms
        ensures m.Key() in processed <==> m.Key() in store.messages
      {
        var i :| 0 <= i < |ms| && ms[i] == m;
        assert keys[i] in keys;
      }
      FetchPool.FreshAgrees(ms, processed, store.messages.Keys);
      if processed == {} {
        FetchPool.FreshOfNone(ms);
        return ms;
      }
      kept := FetchPool.FilterAlreadyProcessed(ms, processed);
    }

    method RecordProcessedMessages(id: string, ms: seq<Message>, cs: seq<Classification>, env: Env)
      modifies store
      ensures store.Snapshot() == MessagesRecorded(old(store.Snapshot()), id, ms, Overridden(map[], cs), cfg, env)
    {
      var classes := map[];
      for i := 0 to |cs|
        invariant classes == Overridden(map[], cs[..i])
      {
        assert cs[..i + 1][..i] == cs[..i];
        classes := classes[cs[i].key := cs[i]];
      }
      assert cs[..|cs|] == cs;
      for i := 0 to |ms|
        invariant store.Snapshot() == MessagesRecorded(old(store.Snapshot()), id, ms[..i], classes, cfg, env)
      {
        assert ms[..i + 1][..i] == ms[..i];
        if ms[i].Key() in classes && !env.messageFails(i) {
          var at := env.processedAt(i);
          store.RecordMessage(MessageRecord(id, ms[i], classes[ms[i].Key()], cfg, at), at);
        }
      }
      assert ms[..|ms|] == ms;
    }

    method RecordFlags(cs: seq<Classification>, env: Env)
      modifies store
      ensures store.Snapshot() == FlagsRecorded(old(store.Snapshot()), cs, cfg, env)
    {
      for i := 0 to |cs|
        invariant store.Snapshot() == FlagsRecorded(old(store.Snapshot()), cs[..i], cfg, env)
      {
        assert cs[..i + 1][..i] == cs[..i];
        var keyword := Keyword(cs[i], cfg.Labels());
        if keyword != "" && !env.flagFails(i) {
          store.RecordFlag(FlagRecord(cs[i].key.account, cs[i].key.uid, keyword, env.appliedAt(i)), env.appliedAt(i));
        }
      }
      assert cs[..|cs|] == cs;
    }

    method FinishRun(r: Result, env: Env)
      modifies store
      ensures store.Snapshot() == Ended(old(store.Snapshot()), r, env)
    {
      if !env.finishFails {
        var _ := store.FinishRun(r.runID, r.status, r.totalFetched, r.err, env.finishedAt);
      }
    }

    /** The classification, and the digest handed to the renderer. */
    method ClassifyAndCollect(ms: seq<Message>, results: seq<FetchPool.FetchResult>,
                              errors: map<string, FetchPool.FetchError>, env: Env)
        returns (o: Outcome, requests: seq<Request>, d: Digest)
      modifies this
      ensures o == OutcomeOf(ms, cfg, env) && requests == Requests(ms, cfg, env)
      ensures digests == old(digests) + [d] && IsDigest(d, ms, o, results, errors)
      ensures |d.messages| == |ms| && d.failedCount == Unclassified(ms, o)
      ensures d.analysisFailedCount == AnalysisFailures(ms, o)
    {
      hide ClassifyOutcome, IsDigest, RepairSent, ResponseParser.ParsedResponse, AnalysisFailures, Unclassified;
      var keys := CollectRequestKeys(ms);
      var provider := new Provider(env.replies);
      o := ClassifyWithPartialFallback(provider, keys, env.decode, cfg.Labels(), cfg.maxAttempts);
      requests := provider.requests;
      d := BuildDigestDataPartial(ms, o, results, errors);
      DigestNumbers(d, ms, o, results, errors);
      digests := digests + [d];
    }

    /** Steps 4 to 10. */
    method Analyse(id: string, ms: seq<Message>, results: seq<FetchPool.FetchResult>,
                   errors: map<string, FetchPool.FetchError>, opts: Options, env: Env)
        returns (result: Result, trace: Trace)
      modifies this, store
      ensures var r := Analysed(old(store.Snapshot()), id, errors != map[], ms, opts, cfg, env);
              store.Snapshot() == Ended(r.store, r.result, env) && result == r.result && trace == r.trace
      ensures |digests| == |old(digests)| + 1 && digests[..|old(digests)|] == old(digests)
      ensures IsDigest(digests[|old(digests)|], ms, OutcomeOf(ms, cfg, env), results, errors)
      ensures trace.requests != []
    {
      hide OutcomeOf, Requests, IsDigest, Ended, MessagesRecorded, FlagsRecorded, AnalysisFailures, Unclassified,
        DigestRecorded, WithFinish;
      var status := if errors != map[] then Partial else Unset;
      var o, requests, d := ClassifyAndCollect(ms, results, errors, env);
      assert requests != [] by { RequestMade(ms, cfg, env); }
      trace := Trace(requests, [], []);
      result := Result(id, status, |ms|, |d.messages|, d.failedCount, d.analysisFailedCount, None);
      if env.rendered == None {
        result := result.(status := Degraded, err := Some(RenderFailed));
        FinishRun(result, env);
        return;
      }
      if o.hardError || o.valid == [] {
        result := result.(status := Degraded);
      } else if result.analysisFailedCount > 0 {
        result := result.(status := PartiallyClassified);
      }
      var payload := env.rendered.value;
      if !opts.dryRun {
        trace := trace.(flagged := if o.hardError then [] else o.valid, sent := [payload]);
        if !env.delivered {
          RecordDigest(id, false, payload, env);
          result := result.(status := Degraded, err := Some(SendFailed));
          FinishRun(result, env);
          return;
        }
        RecordDigest(id, true, payload, env);
      }
      if !opts.stateless && !o.hardError {
        RecordProcessedMessages(id, ms, o.valid, env);
        RecordFlags(o.valid, env);
      }
      if result.status == Unset {
        result := result.(status := if result.analysisFailedCount > 0 then PartiallyClassified else Completed);
      }
      FinishRun(result, env);
    }

    method CollectRequestKeys(ms: seq<Message>) returns (keys: seq<MessageKey>)
      ensures keys == MessageKeys(ms)
    {
      keys := [];
      for i := 0 to |ms|
        invariant |keys| == i && forall k :: 0 <= k < i ==> keys[k] == ms[k].Key()
      {
        keys := keys + [ms[i].Key()];
      }
    }

    method RecordDigest(id: string, sent: bool, payload: string, env: Env)
      modifies store
      ensures store.Snapshot() == DigestRecorded(old(store.Snapshot()), id, sent, payload, env)
    {
      if !env.digestRecordFails { store.RecordDigest(DigestRecord(id, sent, payload)); }
    }

    /** Steps 2 to 10, for a recorded run. */
    method Process(id: string, opts: Options, env: Env) returns (result: Result, trace: Trace)
      modifies this, store
      ensures var r := Processed(old(store.Snapshot()), id, opts, cfg, env);
              store.Snapshot() == Ended(r.store, r.result, env) && result == r.result && trace == r.trace
      ensures |digests| == |old(digests)| + (if trace.requests != [] then 1 else 0)
      ensures digests[..|old(digests)|] == old(digests)
      ensures trace.requests != [] ==> IsRunDigest(digests[|old(digests)|], old(store.Snapshot()), opts, cfg, env)
    {
      hide Requests, Analysed, Since, Ended, IsDigest, OutcomeOf, FetchPool.Fresh, FetchPool.Flattened,
        FetchPool.ErrorsByAccount;
      result, trace := Result(id, Unset, 0, 0, 0, 0, None), NOTHING;
      var since := FetchWindow(opts, env);
      if since == None {
        result := result.(status := IngestFailed, err := Some(WindowFailed));
        FinishRun(result, env);
        return;
      }
      var results := env.fetch(since.value);
      var errors := FetchPool.AccountErrors(results);
      var ms := FetchPool.FlattenMessages(results);
      if errors != map[] && ms == [] {
        result := result.(status := IngestFailed, err := Some(AllAccountsFailed(|errors|)));
        FinishRun(result, env);
        return;
      }
      assert NewMessages(store.Snapshot(), [], opts, env) == [] by { NothingNew(store.Snapshot(), opts, env); }
      if !opts.forceReprocess && ms != [] { ms := FilterProcessed(ms, env); }
      if ms == [] {
        result := result.(status := Completed);
        FinishRun(result, env);
        return;
      }
      result, trace := Analyse(id, ms, results, errors, opts, env);
    }

    method Run(opts: Options, env: Env) returns (result: Result, trace: Trace)
      modifies this, store
      ensures var r := RunReport(old(store.Snapshot()), opts, cfg, env);
              store.Snapshot() == r.store && result == r.result && trace == r.trace
      ensures |digests| == |old(digests)| + (if trace.requests != [] then 1 else 0)
      ensures digests[..|old(digests)|] == old(digests)
      ensures trace.requests != [] ==>
                IsRunDigest(digests[|old(digests)|], Started(old(store.Snapshot()), env), opts, cfg, env)
    {
      hide Processed, WithRun, Ended, IsRunDigest;
      if env.recordRunFails {
        return Result("", IngestFailed, 0, 0, 0, 0, Some(RecordRunFailed)), NOTHING;
      }
      var run := store.RecordRun(Store.Run("", env.startedAt, None, Running, 0, None), env.startedAt);
      RecordedId(old(store.Snapshot()), env);
      result, trace := Process(run.id, opts, env);
    }
  }

  lemma {:induction false} RequestMade(ms: seq<Message>, cfg: Config, env: Env)
    ensures Requests(ms, cfg, env) != []
  {
    hide RepairSent, ResponseParser.ParsedResponse;
  }

  lemma {:induction false} NothingNew(c: Contents, opts: Options, env: Env)
    ensures NewMessages(c, [], opts, env) == []
  {
  }

  lemma {:induction false} DigestNumbers(d: Digest, ms: seq<Message>, o: Outcome, results: seq<FetchPool.FetchResult>,
                                         errors: map<string, FetchPool.FetchError>)
    requires IsDigest(d, ms, o, results, errors)
    ensures |d.messages| == |ms|
    ensures d.failedCount == Unclassified(ms, o)
    ensures d.analysisFailedCount == AnalysisFailures(ms, o)
  {
  }

  lemma {:induction false} RecordedId(c: Contents, env: Env)
    ensures Started(c, env).runs != []
    ensures Started(c, env).runs[|c.runs|].id == RunId(c.nextID + 1)
    ensures |Started(c, env).runs| == |c.runs| + 1
  {
  }
}
