/**
  The in-memory store of runs, processed messages, flags and digests.
 */
module Store {
  import opened Text
  import opened Decimal

  datatype RunStatus =
    Unset | Running | Completed | Degraded | IngestFailed | Partial | PartiallyClassified | Cancelled

  datatype RunError =
    RecordRunFailed | WindowFailed | AllAccountsFailed(accounts: nat) | RenderFailed | SendFailed

  /** Go's zero time, which the store replaces by the current time. */
  const ZERO_TIME := 0

  datatype Run = Run(
    id: string, startedAt: int, finishedAt: Option<int>, status: RunStatus, messageCount: int,
    error: Option<RunError>)

  datatype ProcessedMessage = ProcessedMessage(
    runId: string, account: string, uid: uint32, isRead: bool, category: string, excerpt: string, processedAt: int)
  {
    function Key(): MessageKey { MessageKey(account, uid) }
  }

  datatype FlagRecord = FlagRecord(account: string, uid: uint32, flag: string, appliedAt: int)

  datatype DigestRecord = DigestRecord(runId: string, sent: bool, payload: string)

  datatype RunDigestSummary = RunDigestSummary(
    runId: string, finishedAt: int, countsByLabel: map<string, nat>, senderCounts: map<string, nat>,
    domainCounts: map<string, nat>, accountsFailed: int, highPriorityCount: int)

  /** What a store holds. */
  datatype Contents = Contents(
    runs: seq<Run>, messages: map<MessageKey, ProcessedMessage>, flags: seq<FlagRecord>,
    digests: seq<DigestRecord>, summaries: map<string, RunDigestSummary>, nextID: nat)

  const EMPTY := Contents([], map[], [], [], map[], 0)

  // ---------------------------------------------------------------------------
  // What the operations do to the contents
  // ---------------------------------------------------------------------------

  function RunId(n: nat): string {
    "noop-run-" + Numeral(n)
  }

  function OrNow(time: int, now: int): int {
    if time == ZERO_TIME then now else time
  }

  /** The run as recorded: without an ID it gets the next one. */
  function Prepared(r: Run, id: nat, now: int): Run {
    r.(id := if r.id == "" then RunId(id) else r.id,
       startedAt := OrNow(r.startedAt, now),
       status := if r.status == Unset then Running else r.status)
  }

  function WithRun(c: Contents, r: Run, now: int): Contents {
    c.(runs := c.runs + [Prepared(r, c.nextID + 1, now)], nextID := c.nextID + 1)
  }

  /** The position of the first run with this ID, or the number of runs. */
  function RunIndex(runs: seq<Run>, id: string): (i: nat)
    ensures i <= |runs|
    ensures forall j :: 0 <= j < i ==> runs[j].id != id
    ensures i < |runs| ==> runs[i].id == id
  {
    if runs == [] || runs[0].id == id then 0 else 1 + RunIndex(runs[1..], id)
  }

  function Finished(r: Run, status: RunStatus, count: int, error: Option<RunError>, now: int): Run {
    r.(finishedAt := Some(now), status := status, messageCount := count, error := error)
  }

  function WithFinish(c: Contents, id: string, status: RunStatus, count: int, error: Option<RunError>, now: int)
      : Contents
  {
    var i := RunIndex(c.runs, id);
    if i < |c.runs| then c.(runs := c.runs[i := Finished(c.runs[i], status, count, error, now)]) else c
  }

  /** The first record of a key stays. */
  function WithMessage(c: Contents, m: ProcessedMessage, now: int): Contents {
    if m.Key() in c.messages then c
    else c.(messages := c.messages[m.Key() := m.(processedAt := OrNow(m.processedAt, now))])
  }

  predicate SameFlag(a: FlagRecord, b: FlagRecord) {
    a.account == b.account && a.uid == b.uid && a.flag == b.flag
  }

  predicate HasFlag(flags: seq<FlagRecord>, r: FlagRecord) {
    exists i :: 0 <= i < |flags| && SameFlag(flags[i], r)
  }

  function WithFlag(c: Contents, r: FlagRecord, now: int): Contents {
    if HasFlag(c.flags, r) then c
    else c.(flags := c.flags + [r.(appliedAt := OrNow(r.appliedAt, now))])
  }

  /** The latest finish among the completed runs. */
  function LatestCompletion(runs: seq<Run>): (latest: Option<int>)
    ensures latest == None <==> forall i :: 0 <= i < |runs| ==> !Counts(runs[i])
    ensures latest.Some? ==> exists i :: 0 <= i < |runs| && Counts(runs[i]) && runs[i].finishedAt == latest
    ensures latest.Some? ==> forall i :: 0 <= i < |runs| && Counts(runs[i]) ==> runs[i].finishedAt.value <= latest.value
  {
    if runs == [] then None
    else
      var n := |runs| - 1;
      var before := LatestCompletion(runs[..n]);
      if Counts(runs[n]) && (before == None || runs[n].finishedAt.value > before.value) then runs[n].finishedAt
      else before
  }

  predicate Counts(r: Run) {
    r.status == Completed && r.finishedAt.Some?
  }

  /** A run whose digest may be compared with the digest of a run that finished at `end`. */
  predicate Comparable(c: Contents, i: nat, end: int)
    requires i < |c.runs|
  {
    Counts(c.runs[i]) && c.runs[i].finishedAt.value < end && c.runs[i].id in c.summaries
  }

  /** The first of the latest comparable runs. */
  ghost predicate IsPrior(c: Contents, i: nat, end: int)
    requires i < |c.runs|
  {
    && Comparable(c, i, end)
    && forall j :: 0 <= j < |c.runs| && Comparable(c, j, end) ==>
         var a, b := c.runs[j].finishedAt.value, c.runs[i].finishedAt.value;
         a <= b && (j < i ==> a < b)
  }

  /**
    What `GetPreviousRunDigestSummary` returns: nothing for an unknown or unfinished run;
    otherwise the summary of the first of the latest completed runs with a summary that
    finished strictly earlier.
   */
  ghost predicate IsPreviousSummary(c: Contents, id: string, now: int, prior: Option<RunDigestSummary>) {
    var at := RunIndex(c.runs, id);
    if at == |c.runs| || c.runs[at].finishedAt == None then prior == None
    else
      var end := OrNow(c.runs[at].finishedAt.value, now);
      && (prior == None <==> forall i :: 0 <= i < |c.runs| ==> !Comparable(c, i, end))
      && (prior.Some? ==>
            exists i :: 0 <= i < |c.runs| && IsPrior(c, i, end) && prior.value == c.summaries[c.runs[i].id])
  }

  // ---------------------------------------------------------------------------
  // The store
  // ---------------------------------------------------------------------------

  class NoopStore {
    var runs: seq<Run>
    var messages: map<MessageKey, ProcessedMessage>
    var flags: seq<FlagRecord>
    var digests: seq<DigestRecord>
    var digestSummaries: map<string, RunDigestSummary>
    var nextID: nat

    function Snapshot(): Contents
      reads this
    {
      Contents(runs, messages, flags, digests, digestSummaries, nextID)
    }

    constructor ()
      ensures Snapshot() == EMPTY
    {
      runs, messages, flags, digests, digestSummaries, nextID := [], map[], [], [], map[], 0;
    }

    method RecordRun(r: Run, now: int) returns (recorded: Run)
      modifies this
      ensures Snapshot() == WithRun(old(Snapshot()), r, now)
      ensures recorded == runs[|runs| - 1]
    {
      hide RunId;
      nextID := nextID + 1;
      recorded := r;
      if recorded.id == "" { recorded := recorded.(id := RunId(nextID)); }
      if recorded.startedAt == ZERO_TIME { recorded := recorded.(startedAt := now); }
      if recorded.status == Unset { recorded := recorded.(status := Running); }
      runs := runs + [recorded];
    }

    /** False when there is no such run. */
    method FinishRun(id: string, status: RunStatus, count: int, error: Option<RunError>, now: int) returns (found: bool)
      modifies this
      ensures Snapshot() == WithFinish(old(Snapshot()), id, status, count, error, now)
      ensures found <==> exists r :: r in old(runs) && r.id == id
    {
      for i := 0 to |runs|
        invariant runs == old(runs) && Snapshot() == old(Snapshot())
        invariant forall j :: 0 <= j < i ==> runs[j].id != id
      {
        if runs[i].id == id {
          assert RunIndex(runs, id) == i;
          assert runs[i] in runs;
          runs := runs[i := Finished(runs[i], status, count, error, now)];
          return true;
        }
      }
      return false;
    }

    method GetLastSuccessfulRunTime() returns (latest: Option<int>)
      ensures latest == LatestCompletion(runs)
    {
      hide LatestCompletion;
      latest := None;
      for i := 0 to |runs|
        invariant latest == LatestCompletion(runs[..i])
      {
        assert runs[..i + 1] == runs[..i] + [runs[i]];
        LatestAppend(runs[..i], runs[i]);
        if runs[i].status == Completed && runs[i].finishedAt.Some? {
          if latest == None || runs[i].finishedAt.value > latest.value { latest := runs[i].finishedAt; }
        }
      }
      assert runs[..|runs|] == runs;
    }

    method RecordMessage(m: ProcessedMessage, now: int)
      modifies this
      ensures Snapshot() == WithMessage(old(Snapshot()), m, now)
    {
      if m.Key() in messages { return; }
      messages := messages[m.Key() := m.(processedAt := OrNow(m.processedAt, now))];
    }

    method AlreadyProcessed(keys: seq<MessageKey>) returns (known: set<MessageKey>)
      ensures known == set k | k in keys && k in messages
    {
      known := {};
      for i := 0 to |keys|
        invariant known == set k | k in keys[..i] && k in messages
      {
        assert keys[..i + 1] == keys[..i] + [keys[i]];
        if keys[i] in messages { known := known + {keys[i]}; }
      }
      assert keys[..|keys|] == keys;
    }

    method RecordFlag(r: FlagRecord, now: int)
      modifies this
      ensures Snapshot() == WithFlag(old(Snapshot()), r, now)
    {
      for i := 0 to |flags|
        invariant Snapshot() == old(Snapshot())
        invariant forall j :: 0 <= j < i ==> !SameFlag(flags[j], r)
      {
        if SameFlag(flags[i], r) { return; }
      }
      flags := flags + [r.(appliedAt := OrNow(r.appliedAt, now))];
    }

    method RecordDigest(d: DigestRecord)
      modifies this
      ensures Snapshot() == old(Snapshot()).(digests := old(digests) + [d])
    {
      digests := digests + [d];
    }

    method SaveRunDigestSummary(s: RunDigestSummary)
      modifies this
      ensures Snapshot() == old(Snapshot()).(summaries := old(digestSummaries)[s.runId := s])
    {
      digestSummaries := digestSummaries[s.runId := s];
    }

    method GetPreviousRunDigestSummary(id: string, now: int) returns (prior: Option<RunDigestSummary>)
      ensures IsPreviousSummary(Snapshot(), id, now, prior)
    {
      hide RunIndex;
      var at := 0;
      while at < |runs| && runs[at].id != id
        invariant 0 <= at <= |runs| && forall j :: 0 <= j < at ==> runs[j].id != id
      {
        at := at + 1;
      }
      assert at == RunIndex(runs, id);
      if at == |runs| || runs[at].finishedAt == None { return None; }
      var end := OrNow(runs[at].finishedAt.value, now);
      ghost var c := Snapshot();
      prior := None;
      var priorFinishedAt := ZERO_TIME;
      ghost var best := 0;
      for i := 0 to |runs|
        invariant forall j :: 0 <= j < i && Comparable(c, j, end) ==> prior.Some?
        invariant prior.Some? ==> 0 <= best < i && Comparable(c, best, end)
        invariant prior.Some? ==>
          prior.value == digestSummaries[runs[best].id] && priorFinishedAt == runs[best].finishedAt.value
        invariant prior.Some? ==> forall j :: 0 <= j < i && Comparable(c, j, end) ==>
          runs[j].finishedAt.value <= priorFinishedAt && (j < best ==> runs[j].finishedAt.value < priorFinishedAt)
      {
        if Counts(runs[i]) && runs[i].finishedAt.value < end
           && (prior == None || runs[i].finishedAt.value > priorFinishedAt)
           && runs[i].id in digestSummaries
        {
          prior, priorFinishedAt, best := Some(digestSummaries[runs[i].id]), runs[i].finishedAt.value, i;
        }
      }
    }
  }

  // ---------------------------------------------------------------------------
  // Properties of the operations
  // ---------------------------------------------------------------------------

  lemma {:induction false} RunIdInjective(a: nat, b: nat)
    requires RunId(a) == RunId(b)
    ensures a == b
  {
    assert RunId(a)[9..] == Numeral(a) && RunId(b)[9..] == Numeral(b);
    ValueOfNumeral(a);
    ValueOfNumeral(b);
  }

  /** Run IDs were handed out in order, so no two runs share one. */
  ghost predicate Numbered(c: Contents) {
    c.nextID == |c.runs| && forall i :: 0 <= i < |c.runs| ==> c.runs[i].id == RunId(i + 1)
  }

  lemma {:induction false} NumberedIndex(c: Contents, i: nat)
    requires Numbered(c) && i < |c.runs|
    ensures RunIndex(c.runs, RunId(i + 1)) == i
  {
    var j := RunIndex(c.runs, RunId(i + 1));
    if j < i { RunIdInjective(i + 1, j + 1); }
    assert c.runs[i].id == RunId(i + 1);
  }

  /** Recording an unnamed run keeps the numbering. */
  lemma {:induction false} RecordNumbered(c: Contents, r: Run, now: int)
    requires Numbered(c) && r.id == ""
    ensures Numbered(WithRun(c, r, now))
  {
    hide RunId;
  }

  /** Finishing the run recorded last touches that run alone. */
  lemma {:induction false} FinishLast(c: Contents, status: RunStatus, count: int, error: Option<RunError>, now: int)
    requires Numbered(c) && c.runs != []
    ensures var n := |c.runs| - 1;
            var c' := WithFinish(c, RunId(c.nextID), status, count, error, now);
            Numbered(c') && c' == c.(runs := c.runs[..n] + [Finished(c.runs[n], status, count, error, now)])
  {
    hide RunId, RunIndex;
    var n := |c.runs| - 1;
    NumberedIndex(c, n);
    assert c.runs[n := Finished(c.runs[n], status, count, error, now)]
        == c.runs[..n] + [Finished(c.runs[n], status, count, error, now)];
  }

  /** No two recorded flags agree on account, UID and keyword. */
  ghost predicate FlagsDistinct(flags: seq<FlagRecord>) {
    forall i, j :: 0 <= i < j < |flags| ==> !SameFlag(flags[i], flags[j])
  }

  lemma {:induction false} WithFlagDistinct(c: Contents, r: FlagRecord, now: int)
    requires FlagsDistinct(c.flags)
    ensures FlagsDistinct(WithFlag(c, r, now).flags)
    ensures HasFlag(WithFlag(c, r, now).flags, r)
    ensures c.flags <= WithFlag(c, r, now).flags
  {
    var flags := WithFlag(c, r, now).flags;
    if !HasFlag(c.flags, r) { assert SameFlag(flags[|c.flags|], r); }
  }

  /** More runs never move the last success back. */
  lemma {:induction false} LatestGrows(runs: seq<Run>, more: seq<Run>)
    requires LatestCompletion(runs).Some?
    ensures LatestCompletion(runs + more).Some?
    ensures LatestCompletion(runs).value <= LatestCompletion(runs + more).value
  {
    var i :| 0 <= i < |runs| && Counts(runs[i]) && runs[i].finishedAt == LatestCompletion(runs);
    assert (runs + more)[i] == runs[i];
  }

  /** The last success after one more run. */
  lemma {:induction false} LatestAppend(runs: seq<Run>, r: Run)
    ensures LatestCompletion(runs + [r]) ==
            if Counts(r) && (LatestCompletion(runs) == None || r.finishedAt.value > LatestCompletion(runs).value)
            then r.finishedAt else LatestCompletion(runs)
  {
    assert (runs + [r])[..|runs|] == runs;
  }
}
