/**
  What a run does, said on its options, its environment and the replies it gets: where the
  fetch starts, what is requested, recorded, flagged and returned.
 */
module RunLaws {
  import opened Text
  import opened Decimal
  import opened Mail
  import opened Store
  import opened Classify
  import opened DigestData
  import opened Pipeline
  import opened Ledger
  import FetchPool
  import ResponseParser
  import ReplyLaws

  const SECOND := 1_000_000_000

  // ---------------------------------------------------------------------------
  // The fetch window
  // ---------------------------------------------------------------------------

  /** An explicit window reaches back from now, whatever the store says and the cap is. */
  lemma {:induction false} ExplicitWindow(c: Contents, opts: Options, cfg: Config, env: Env, w: int)
    requires opts.window == Some(w)
    ensures Since(c, opts, cfg, env).Some? && Since(c, opts, cfg, env).value + w == env.sinceNow
  {
  }

  /** A run with an explicit window fetches exactly that. */
  lemma {:induction false} ExplicitFetch(c: Contents, run: Invocation, cfg: Config, w: int)
    requires run.opts.window == Some(w) && !run.env.recordRunFails
    ensures FetchedMessages(c, run, cfg) == FetchPool.Flattened(run.env.fetch(run.env.sinceNow - w))
  {
  }

  /**
    A dynamic window starts at the last success, or 24 hours ago without one, but at most
    the configured time ago, or 72 hours if none is configured.
   */
  lemma {:induction false} DynamicWindow(c: Contents, opts: Options, cfg: Config, env: Env)
    requires opts.window == None
    ensures env.windowFails ==> Since(c, opts, cfg, env) == None
    ensures !env.windowFails ==>
            var since, latest := Since(c, opts, cfg, env), LatestCompletion(c.runs);
            var cap := if cfg.maxWindow > 0 then cfg.maxWindow else 72 * 3600 * SECOND;
            var start := if latest.Some? then latest.value else env.sinceNow - 24 * 3600 * SECOND;
            && since.Some? && since.value >= start && since.value >= env.capNow - cap
            && (since.value == start || since.value == env.capNow - cap)
  {
    hide LatestCompletion;
  }

  // ---------------------------------------------------------------------------
  // Requests
  // ---------------------------------------------------------------------------

  /** The keys asked about, by the options: without a forced run or a failing store, only unrecorded ones. */
  lemma {:induction false} AskedExactly(c: Contents, run: Invocation, cfg: Config, k: MessageKey)
    ensures k in Requested(ReportAt(c, run, cfg).trace) <==>
              k in MessageKeys(FetchedMessages(c, run, cfg))
              && (!run.opts.forceReprocess && !run.env.lookupFails ==> k !in c.messages)
  {
    hide RunReport, FetchedMessages, Requested;
    RequestedExact(c, run, cfg, k);
  }

  /** The labels offered are the three built in and the configured ones. */
  lemma {:induction false} LabelsOffered(cfg: Config)
    ensures cfg.Labels() == ["Useful", "ToDelete", "Ads"] + cfg.customLabels
  {
  }

  /**
    Every request of a run: one for its messages, if there are any, and a repair of the
    reply unless repair is switched off or the reply is blank, clean, or covers the request.
   */
  lemma {:induction false} RequestsExactly(c: Contents, run: Invocation, cfg: Config)
    ensures var ms, env, t := Analysing(c, run, cfg), run.env, ReportAt(c, run, cfg).trace;
            var labels, reply := cfg.Labels(), env.replies(0);
            if ms == [] then t.requests == []
            else
              && |t.requests| >= 1 && t.requests[0] == ClassifyRequest(labels, MessageKeys(ms))
              && (|t.requests| == 2 <==>
                    reply.Some? && NeedsRepair(MessageKeys(ms), reply.value, env.decode, labels, cfg.maxAttempts))
              && (|t.requests| == 2 ==>
                    var error := ResponseParser.ParsedResponse(reply.value, env.decode, labels).error;
                    error.Some? && t.requests[1] == RepairRequest(labels, reply.value, error.value))
  {
    hide RunReport, Analysing, Requests, FetchedMessages;
    var ms := Analysing(c, run, cfg);
    RunShape(c, run, cfg);
    AnalysedRequests(Started(c, run.env), RunId(c.nextID + 1), AccountsFailed(c, run, cfg), ms, run, cfg);
    RequestsOf(ms, cfg, run.env);
  }

  predicate NeedsRepair(keys: seq<MessageKey>, reply: string, decode: ReplyLaws.Decoder, labels: seq<string>,
                        maxAttempts: int)
  {
    var p := ResponseParser.ParsedResponse(reply, decode, labels);
    && p.error.Some? && maxAttempts != 0 && Trim(reply) != ""
    && exists k :: k in keys && k !in KeySet(p.classifications)
  }

  lemma {:induction false} AnalysedRequests(c: Contents, id: string, accountErrors: bool, ms: seq<Message>,
                                            run: Invocation, cfg: Config)
    ensures Analysed(c, id, accountErrors, ms, run.opts, cfg, run.env).trace.requests == Requests(ms, cfg, run.env)
  {
    hide OutcomeOf, Requests, Unclassified, AnalysisFailures, MessagesRecorded, FlagsRecorded, FinalStatus;
  }

  lemma {:induction false} RequestsOf(ms: seq<Message>, cfg: Config, env: Env)
    ensures var q, labels, reply := Requests(ms, cfg, env), cfg.Labels(), env.replies(0);
            && 1 <= |q| <= 2 && q[0] == ClassifyRequest(labels, MessageKeys(ms))
            && (|q| == 2 <==>
                  reply.Some? && NeedsRepair(MessageKeys(ms), reply.value, env.decode, labels, cfg.maxAttempts))
            && (|q| == 2 ==>
                  var error := ResponseParser.ParsedResponse(reply.value, env.decode, labels).error;
                  error.Some? && q[1] == RepairRequest(labels, reply.value, error.value))
  {
    hide RepairSent, ResponseParser.ParsedResponse, Trim;
    var reply := env.replies(0);
    if reply.Some? {
      ReplyLaws.RepairExactly(MessageKeys(ms), reply.value, env.decode, cfg.Labels(), cfg.maxAttempts);
    }
  }

  // ---------------------------------------------------------------------------
  // Records
  // ---------------------------------------------------------------------------

  /** A new record is that of the first analysed message of its key whose write succeeded. */
  lemma {:induction false} RecordExactly(c: Contents, run: Invocation, cfg: Config, k: MessageKey)
    requires k !in c.messages && k in ReportAt(c, run, cfg).store.messages
    ensures var r, ms := ReportAt(c, run, cfg).store.messages[k], Analysing(c, run, cfg);
            exists i, v ::
              && 0 <= i < |ms| && ms[i].account == k.account == r.account && ms[i].uid == k.uid == r.uid
              && v in OutcomeOf(ms, cfg, run.env).valid && v.key == k
              && !run.env.messageFails(i)
              && r.runId == ReportAt(c, run, cfg).result.runID && r.isRead == ms[i].isRead
              && r.category == v.category && r.excerpt == cfg.excerpt(ms[i].body)
              && r.processedAt == run.env.processedAt(i)
  {
    hide RunReport, Analysing, OutcomeOf, Recording, RunId;
    var ms := Analysing(c, run, cfg);
    var cs := OutcomeOf(ms, cfg, run.env).valid;
    LedgerExact(c, run, cfg, k);
    OverriddenExact(map[], cs);
    RunNamed(c, run, cfg);
    var classes := Overridden(map[], cs);
    var at := Recorder(ms, k, classes, run.env);
    assert k in KeySet(cs) && classes[k] in cs;
  }

  lemma {:induction false} RunNamed(c: Contents, run: Invocation, cfg: Config)
    ensures Recording(c, run, cfg) ==> ReportAt(c, run, cfg).result.runID == RunId(c.nextID + 1)
  {
    hide RunReport, Analysing, OutcomeOf, RunId, Analysed;
    RunShape(c, run, cfg);
    AnalysedId(Started(c, run.env), RunId(c.nextID + 1), AccountsFailed(c, run, cfg), Analysing(c, run, cfg), run, cfg);
  }

  predicate Flagged(flags: seq<FlagRecord>, account: string, uid: uint32, flag: string) {
    exists i :: 0 <= i < |flags| && flags[i].account == account && flags[i].uid == uid && flags[i].flag == flag
  }

  lemma {:induction false} FlagsOf(c: Contents, cs: seq<Classification>, cfg: Config, env: Env, account: string,
                                   uid: uint32, flag: string)
    ensures Flagged(FlagsRecorded(c, cs, cfg, env).flags, account, uid, flag) <==>
            || Flagged(c.flags, account, uid, flag)
            || exists i :: 0 <= i < |cs| && cs[i].key == MessageKey(account, uid) && cs[i].category == flag
                           && flag in cfg.Labels() && flag != "" && !env.flagFails(i)
  {
    if cs != [] {
      var n := |cs| - 1;
      FlagsOf(c, cs[..n], cfg, env, account, uid, flag);
      var before := FlagsRecorded(c, cs[..n], cfg, env);
      assert forall i :: 0 <= i < n ==> cs[..n][i] == cs[i];
      var keyword := Keyword(cs[n], cfg.Labels());
      if keyword != "" && !env.flagFails(n) {
        var r := FlagRecord(cs[n].key.account, cs[n].key.uid, keyword, env.appliedAt(n));
        FlagAdded(before, r, env.appliedAt(n), account, uid, flag);
      }
    }
  }

  lemma {:induction false} FlagAdded(c: Contents, r: FlagRecord, now: int, account: string, uid: uint32, flag: string)
    ensures Flagged(WithFlag(c, r, now).flags, account, uid, flag) <==>
            Flagged(c.flags, account, uid, flag) || (r.account == account && r.uid == uid && r.flag == flag)
  {
    var after := WithFlag(c, r, now).flags;
    assert forall i :: 0 <= i < |c.flags| ==> after[i] == c.flags[i];
    if !HasFlag(c.flags, r) { assert after[|c.flags|].account == r.account; }
  }

  /** After a run a keyword is recorded exactly if it was, or the run accepted it as a label for the message. */
  lemma {:induction false} FlagsExactly(c: Contents, run: Invocation, cfg: Config, account: string, uid: uint32,
                                        flag: string)
    ensures var ms := Analysing(c, run, cfg);
            var cs := OutcomeOf(ms, cfg, run.env).valid;
            Flagged(ReportAt(c, run, cfg).store.flags, account, uid, flag) <==>
              || Flagged(c.flags, account, uid, flag)
              || (Recording(c, run, cfg)
                  && exists i :: 0 <= i < |cs| && cs[i].key == MessageKey(account, uid) && cs[i].category == flag
                                 && flag in cfg.Labels() && flag != "" && !run.env.flagFails(i))
  {
    hide RunReport, Analysing, Analysed, Ended, Started, OutcomeOf, RunId, Flagged, FlagsRecorded;
    RunShape(c, run, cfg);
    if !run.env.recordRunFails {
      var c1, id, ms := Started(c, run.env), RunId(c.nextID + 1), Analysing(c, run, cfg);
      StartedSame(c, run.opts, cfg, run.env);
      AnalysedStore(c1, id, AccountsFailed(c, run, cfg), ms, run, cfg);
      var r := Analysed(c1, id, AccountsFailed(c, run, cfg), ms, run.opts, cfg, run.env);
      FinishedSame(r.store, r.result, run.env);
      FinishedSame(c1, ReportAt(c, run, cfg).result, run.env);
      FlagsOf(c1, OutcomeOf(ms, cfg, run.env).valid, cfg, run.env, account, uid, flag);
    }
  }

  /** Over any sequence of runs, two recorded flags differ in account, UID or keyword. */
  lemma {:induction false} FlagsDiffer(cfg: Config, stores: seq<Contents>, runs: seq<Invocation>, k: nat, i: nat,
                                       j: nat)
    requires IsHistory(cfg, stores, runs) && k < |stores| && i < j < |stores[k].flags|
    ensures var a, b := stores[k].flags[i], stores[k].flags[j];
            a.account != b.account || a.uid != b.uid || a.flag != b.flag
  {
    hide RunReport;
    FlagsStayDistinct(cfg, stores, runs, k);
    assert !SameFlag(stores[k].flags[i], stores[k].flags[j]);
  }

  // ---------------------------------------------------------------------------
  // Errors
  // ---------------------------------------------------------------------------

  /** The error a run returns, by where it stopped. */
  lemma {:induction false} ErrorExactly(c: Contents, run: Invocation, cfg: Config)
    ensures var err, ms, env := ReportAt(c, run, cfg).result.err, Analysing(c, run, cfg), run.env;
            && (err == Some(RecordRunFailed) <==> env.recordRunFails)
            && (err == Some(WindowFailed) <==> !env.recordRunFails && run.opts.window == None && env.windowFails)
            && (err == Some(RenderFailed) <==> ms != [] && env.rendered == None)
            && (err == Some(SendFailed) <==> ms != [] && env.rendered.Some? && !run.opts.dryRun && !env.delivered)
  {
    hide Analysed, Ended, Started, FetchPool.Flattened, FetchPool.ErrorsByAccount, FetchPool.Fresh, LatestCompletion,
      RunId;
    NothingNew(c, run.opts, run.env);
    if !run.env.recordRunFails {
      StartedSame(c, run.opts, cfg, run.env);
      var ms := Analysing(c, run, cfg);
      AnalysedErr(Started(c, run.env), RunId(c.nextID + 1), AccountsFailed(c, run, cfg), ms, run, cfg);
    }
  }

  lemma {:induction false} AnalysedErr(c: Contents, id: string, accountErrors: bool, ms: seq<Message>,
                                       run: Invocation, cfg: Config)
    ensures Analysed(c, id, accountErrors, ms, run.opts, cfg, run.env).result.err ==
            if run.env.rendered == None then Some(RenderFailed)
            else if !run.opts.dryRun && !run.env.delivered then Some(SendFailed) else None
  {
    hide OutcomeOf, Requests, Unclassified, AnalysisFailures, MessagesRecorded, FlagsRecorded, FinalStatus;
  }

  lemma {:induction false} RunIdGiven(n: nat)
    ensures RunId(n) != ""
  {
  }

  /** A run has no ID exactly when it could not be recorded; then nothing is sent or counted. */
  lemma {:induction false} Unrecorded(c: Contents, run: Invocation, cfg: Config)
    ensures var report := ReportAt(c, run, cfg);
            && (report.result.runID == "" <==> run.env.recordRunFails)
            && (report.result.runID == "" ==>
                  && report.result.totalFetched == report.result.totalClassified == 0
                  && report.result.failedCount == report.result.analysisFailedCount == 0
                  && report.trace.requests == [] && report.trace.flagged == [] && report.trace.sent == [])
  {
    hide Analysed, Ended, Started, RunId, FetchPool.Flattened, FetchPool.ErrorsByAccount, FetchPool.Fresh, Since;
    RunIdGiven(c.nextID + 1);
    if !run.env.recordRunFails {
      StartedSame(c, run.opts, cfg, run.env);
      var ms := Analysing(c, run, cfg);
      AnalysedId(Started(c, run.env), RunId(c.nextID + 1), AccountsFailed(c, run, cfg), ms, run, cfg);
    }
  }

  // ---------------------------------------------------------------------------
  // The store
  // ---------------------------------------------------------------------------

  /** A run handed over without ID, start and status gets them; one that has them keeps them. */
  lemma {:induction false} RunPrepared(c: Contents, now: int, r: Run)
    ensures WithRun(c, Run("", 0, None, Unset, 0, None), now).runs
         == c.runs + [Run("noop-run-" + Numeral(c.nextID + 1), now, None, Running, 0, None)]
    ensures r.id != "" && r.startedAt != 0 && r.status != Unset ==> WithRun(c, r, now).runs == c.runs + [r]
  {
  }

  lemma {:induction false} PriorComparable(c: Contents, end: int)
    ensures forall i :: 0 <= i < |c.runs| && IsPrior(c, i, end) ==> Comparable(c, i, end)
  {
  }

  /** Of two completed runs the later one is compared with the earlier, unless they finished together. */
  lemma {:induction false} PreviousOfTwo(c: Contents, a: Run, b: Run, s: RunDigestSummary, now: int,
                                         prior: Option<RunDigestSummary>)
    requires c.runs == [a, b] && a.id != b.id && a.status == b.status == Completed
    requires a.finishedAt.Some? && b.finishedAt.Some? && b.finishedAt.value != 0
    requires a.finishedAt.value <= b.finishedAt.value
    requires a.id in c.summaries && c.summaries[a.id] == s
    requires IsPreviousSummary(c, b.id, now, prior)
    ensures prior == if a.finishedAt.value < b.finishedAt.value then Some(s) else None
  {
    hide RunIndex, IsPrior;
    assert c.runs[0] == a && c.runs[1] == b;
    var at := RunIndex(c.runs, b.id);
    assert at == 1;
    var end := b.finishedAt.value;
    assert forall i :: 0 <= i < |c.runs| ==> (Comparable(c, i, end) <==> i == 0 && a.finishedAt.value < end);
    PriorComparable(c, end);
    assert OrNow(c.runs[at].finishedAt.value, now) == end;
    assert Comparable(c, 0, end) <==> a.finishedAt.value < end;
    if prior.Some? {
      var i :| 0 <= i < |c.runs| && IsPrior(c, i, end) && prior.value == c.summaries[c.runs[i].id];
      assert i == 0;
    }
  }
}
