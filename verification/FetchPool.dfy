/**
  `FetchAll` as a system of interleaved steps: one goroutine per account, at most
  `maxConcurrent` of them running, all writing into one results slice.
 */
module FetchPool {
  import opened Text
  import opened Decimal
  import opened Mail

  datatype FetchError = Cancelled | NoIngester | FetchFailed(reason: string)

  datatype FetchResult = FetchResult(account: string, messages: seq<Message>, err: Option<FetchError>)

  /** What a fetch returns when nothing cancels it. */
  datatype Fetched = Fetched(messages: seq<Message>, err: Option<FetchError>)

  datatype Env = Env(accounts: seq<string>, ingesters: set<string>, fetch: nat -> Fetched, maxConcurrent: int)
  {
    function Limit(): nat { if maxConcurrent <= 0 then 1 else maxConcurrent }
  }

  /** Where a goroutine is; `Returning` carries the error it hands to the group. */
  datatype Phase =
    | NotStarted
    | Started
    | Fetching
    | Returning(err: Option<FetchError>)
    | Done

  datatype State = State(
    next: nat,                            // accounts before this one have been handed to the group
    phases: seq<Phase>,
    results: seq<Option<FetchResult>>,
    writes: seq<nat>,                     // how often each slot was written
    parentCancelled: bool,                // the caller's context
    groupFailed: bool)                    // the group saw an error and cancelled its context
  {
    /** `ctx.Done()` inside the goroutines. */
    predicate ContextDone() { parentCancelled || groupFailed }
  }

  datatype Step =
    | Spawn
    | CancelParent
    | Check(i: nat)
    | Complete(i: nat, outcome: Fetched)
    | Return(i: nat)

  predicate IsActive(p: Phase) {
    p != NotStarted && p != Done
  }

  function Active(phases: seq<Phase>): nat {
    if phases == [] then 0
    else Active(phases[..|phases| - 1]) + (if IsActive(phases[|phases| - 1]) then 1 else 0)
  }

  function Init(env: Env): State {
    var n := |env.accounts|;
    State(0, seq(n, _ => NotStarted), seq(n, _ => None), seq(n, _ => 0), false, false)
  }

  /** A goroutine stores its result and is about to return nil. */
  function Written(s: State, i: nat, r: FetchResult): State
    requires i < |s.phases| == |s.results| == |s.writes|
  {
    s.(phases := s.phases[i := Returning(None)],
       results := s.results[i := Some(r)],
       writes := s.writes[i := s.writes[i] + 1])
  }

  ghost predicate WellFormed(env: Env, s: State) {
    |env.accounts| == |s.phases| == |s.results| == |s.writes| && s.next <= |env.accounts|
  }

  /** One step of the system. */
  ghost predicate Next(env: Env, s: State, step: Step, s': State)
    requires WellFormed(env, s)
  {
    match step
    case Spawn =>
      // `g.Go` blocks until the group has room.
      && s.next < |env.accounts| && Active(s.phases) < env.Limit()
      && s' == s.(next := s.next + 1, phases := s.phases[s.next := Started])
    case CancelParent =>
      !s.parentCancelled && s' == s.(parentCancelled := true)
    case Check(i) =>
      && i < |s.phases| && s.phases[i] == Started
      && s' == if s.ContextDone() then Written(s, i, FetchResult(env.accounts[i], [], Some(Cancelled)))
               else if env.accounts[i] !in env.ingesters
               then Written(s, i, FetchResult(env.accounts[i], [], Some(NoIngester)))
               else s.(phases := s.phases[i := Fetching])
    case Complete(i, outcome) =>
      // A fetch may return anything once its context is done, otherwise its own outcome.
      && i < |s.phases| && s.phases[i] == Fetching
      && (!s.ContextDone() ==> outcome == env.fetch(i))
      && s' == Written(s, i, FetchResult(env.accounts[i], outcome.messages, outcome.err))
    case Return(i) =>
      && i < |s.phases| && s.phases[i].Returning?
      && s' == s.(phases := s.phases[i := Done], groupFailed := s.groupFailed || s.phases[i].err.Some?)
  }

  /** `g.Wait` returns: every account was handed out and every goroutine has returned. */
  predicate Finished(s: State) {
    s.next == |s.phases| && forall i :: 0 <= i < |s.phases| ==> s.phases[i] == Done
  }

  /** What fetching account `i` alone gives. */
  function Sequential(env: Env, i: nat): FetchResult
    requires i < |env.accounts|
  {
    if env.accounts[i] !in env.ingesters then FetchResult(env.accounts[i], [], Some(NoIngester))
    else FetchResult(env.accounts[i], env.fetch(i).messages, env.fetch(i).err)
  }

  // ---------------------------------------------------------------------------
  // Invariant
  // ---------------------------------------------------------------------------

  ghost predicate SlotOk(env: Env, s: State, i: nat)
    requires WellFormed(env, s) && i < |s.phases|
  {
    && (s.phases[i] == NotStarted <==> s.next <= i)
    && (s.phases[i] == Fetching ==> env.accounts[i] in env.ingesters)
    && (s.phases[i].Returning? ==> s.phases[i].err == None)
    && s.writes[i] == (if s.phases[i].Returning? || s.phases[i] == Done then 1 else 0)
    && (s.results[i].Some? <==> s.writes[i] == 1)
    && (s.results[i].Some? ==> s.results[i].value.account == env.accounts[i])
    && (s.results[i].Some? && !s.parentCancelled ==> s.results[i].value == Sequential(env, i))
  }

  ghost predicate Inv(env: Env, s: State) {
    && WellFormed(env, s)
    && Active(s.phases) <= env.Limit()
    && !s.groupFailed
    && forall i :: 0 <= i < |s.phases| ==> SlotOk(env, s, i)
  }

  lemma {:induction false} ActiveUpdate(phases: seq<Phase>, i: nat, p: Phase)
    requires i < |phases|
    ensures Active(phases[i := p]) ==
            Active(phases) - (if IsActive(phases[i]) then 1 else 0) + (if IsActive(p) then 1 else 0)
  {
    var n := |phases| - 1;
    if i < n {
      assert phases[i := p][..n] == phases[..n][i := p];
      ActiveUpdate(phases[..n], i, p);
    } else {
      assert phases[i := p][..n] == phases[..n];
    }
  }

  lemma {:induction false} ActiveOfIdle(phases: seq<Phase>)
    requires forall i :: 0 <= i < |phases| ==> !IsActive(phases[i])
    ensures Active(phases) == 0
  {
    if phases != [] { ActiveOfIdle(phases[..|phases| - 1]); }
  }

  lemma {:induction false} SomeoneActive(phases: seq<Phase>) returns (i: nat)
    requires Active(phases) > 0
    ensures i < |phases| && IsActive(phases[i])
  {
    if IsActive(phases[|phases| - 1]) {
      i := |phases| - 1;
    } else {
      i := SomeoneActive(phases[..|phases| - 1]);
    }
  }

  lemma {:induction false} InitInv(env: Env)
    ensures Inv(env, Init(env))
  {
    ActiveOfIdle(Init(env).phases);
  }

  /** Every step of every goroutine, of the spawning loop and of the caller keeps the invariant. */
  lemma {:induction false} NextInv(env: Env, s: State, step: Step, s': State)
    requires Inv(env, s) && Next(env, s, step, s')
    ensures Inv(env, s')
  {
    hide Active;
    match step {
      case Spawn => ActiveUpdate(s.phases, s.next, Started);
      case CancelParent =>
      case Check(i) => ActiveUpdate(s.phases, i, s'.phases[i]);
      case Complete(i, outcome) => ActiveUpdate(s.phases, i, s'.phases[i]);
      case Return(i) =>
        assert SlotOk(env, s, i);
        ActiveUpdate(s.phases, i, Done);
    }
    forall j | 0 <= j < |s'.phases|
      ensures SlotOk(env, s', j)
    {
      assert SlotOk(env, s, j);
    }
  }

  // ---------------------------------------------------------------------------
  // Runs
  // ---------------------------------------------------------------------------

  /** A run: states joined by steps, from the initial state on. */
  ghost predicate IsRun(env: Env, states: seq<State>, steps: seq<Step>) {
    && |states| == |steps| + 1
    && states[0] == Init(env)
    && forall k :: 0 <= k < |steps| ==>
         WellFormed(env, states[k]) && Next(env, states[k], steps[k], states[k + 1])
  }

  lemma {:induction false} RunInv(env: Env, states: seq<State>, steps: seq<Step>, k: nat)
    requires IsRun(env, states, steps) && k < |states|
    ensures Inv(env, states[k])
  {
    if k == 0 {
      InitInv(env);
    } else {
      RunInv(env, states, steps, k - 1);
      NextInv(env, states[k - 1], steps[k - 1], states[k]);
    }
  }

  lemma {:induction false} CancellationStays(env: Env, states: seq<State>, steps: seq<Step>, k: nat)
    requires IsRun(env, states, steps) && k < |states| && CancelParent !in steps
    ensures !states[k].parentCancelled
  {
    if k > 0 {
      CancellationStays(env, states, steps, k - 1);
      assert steps[k - 1] in steps;
      assert Next(env, states[k - 1], steps[k - 1], states[k]);
    }
  }

  /**
    At every moment of every interleaving at most max(1, maxConcurrent) goroutines are
    active, no slot has been written twice, every written slot holds its own account, and
    the group has not cancelled anything because of a failing account.
   */
  lemma {:induction false} FetchAllSafe(env: Env, states: seq<State>, steps: seq<Step>, k: nat)
    requires IsRun(env, states, steps) && k < |states|
    ensures var s := states[k];
            && Active(s.phases) <= env.Limit()
            && |s.writes| == |s.results| == |env.accounts|
            && (forall i :: 0 <= i < |s.writes| ==> s.writes[i] <= 1)
            && (forall i :: 0 <= i < |s.results| && s.results[i].Some? ==>
                  s.results[i].value.account == env.accounts[i])
            && (s.ContextDone() ==> s.parentCancelled)
  {
    RunInv(env, states, steps, k);
    var s := states[k];
    forall i | 0 <= i < |s.writes|
      ensures s.writes[i] <= 1 && (s.results[i].Some? ==> s.results[i].value.account == env.accounts[i])
    {
      assert SlotOk(env, s, i);
    }
  }

  /**
    When `FetchAll` returns, every slot has been written exactly once with its account's
    result; and unless the caller cancelled, the slots hold what fetching the accounts one
    after the other gives, whatever the interleaving was.
   */
  lemma {:induction false} FetchAllResult(env: Env, states: seq<State>, steps: seq<Step>)
    requires IsRun(env, states, steps) && Finished(states[|steps|])
    ensures var s := states[|steps|];
            && |s.results| == |s.writes| == |env.accounts|
            && (forall i :: 0 <= i < |env.accounts| ==>
                  s.writes[i] == 1 && s.results[i].Some? && s.results[i].value.account == env.accounts[i])
            && (CancelParent !in steps ==>
                  forall i :: 0 <= i < |env.accounts| ==> s.results[i] == Some(Sequential(env, i)))
  {
    var s := states[|steps|];
    RunInv(env, states, steps, |steps|);
    if CancelParent !in steps { CancellationStays(env, states, steps, |steps|); }
    forall i | 0 <= i < |env.accounts|
      ensures s.writes[i] == 1 && s.results[i].Some? && s.results[i].value.account == env.accounts[i]
      ensures CancelParent !in steps ==> s.results[i] == Some(Sequential(env, i))
    {
      assert SlotOk(env, s, i);
    }
  }

  /** The limit in the setting's own terms: as configured, but at least one. */
  lemma {:induction false} LimitExactly(env: Env)
    ensures env.Limit() >= 1 && (env.maxConcurrent >= 1 ==> env.Limit() == env.maxConcurrent)
    ensures env.maxConcurrent < 1 ==> env.Limit() == 1
  {
  }

  /** Goroutines that have started and not yet returned. */
  function Underway(phases: seq<Phase>): set<nat> {
    set i: nat | i < |phases| && phases[i] != NotStarted && phases[i] != Done
  }

  lemma {:induction false} UnderwayCounted(phases: seq<Phase>)
    ensures |Underway(phases)| == Active(phases)
  {
    if phases == [] {
      assert Underway([]) == {} by { NoneUnderway(); }
    } else {
      var n := |phases| - 1;
      UnderwayCounted(phases[..n]);
      assert Underway(phases) == Underway(phases[..n]) + (if IsActive(phases[n]) then {n} else {});
    }
  }

  lemma NoneUnderway()
    ensures Underway([]) == {}
  {
  }

  /** At every moment of every interleaving no more goroutines are under way than configured, or one. */
  lemma {:induction false} NeverTooMany(env: Env, states: seq<State>, steps: seq<Step>, k: nat)
    requires IsRun(env, states, steps) && k < |states|
    ensures |Underway(states[k].phases)| <= (if env.maxConcurrent < 1 then 1 else env.maxConcurrent)
  {
    hide Active;
    RunInv(env, states, steps, k);
    UnderwayCounted(states[k].phases);
  }

  /** And the next account is taken up as soon as there is room. */
  lemma {:induction false} SpawnExactly(env: Env, s: State)
    requires WellFormed(env, s)
    ensures (exists s' :: Next(env, s, Spawn, s')) <==>
            s.next < |env.accounts| && |Underway(s.phases)| < (if env.maxConcurrent < 1 then 1 else env.maxConcurrent)
  {
    hide Active;
    UnderwayCounted(s.phases);
    if s.next < |env.accounts| && Active(s.phases) < env.Limit() {
      assert Next(env, s, Spawn, s.(next := s.next + 1, phases := s.phases[s.next := Started]));
    }
  }

  /** What an account's slot holds in the end, unless the caller cancelled. */
  lemma {:induction false} SlotExactly(env: Env, states: seq<State>, steps: seq<Step>, i: nat)
    requires IsRun(env, states, steps) && Finished(states[|steps|]) && CancelParent !in steps && i < |env.accounts|
    ensures var s := states[|steps|];
            && |s.results| == |env.accounts| && s.results[i].Some?
            && var r := s.results[i].value;
               && r.account == env.accounts[i]
               && (r.account in env.ingesters ==> r.messages == env.fetch(i).messages && r.err == env.fetch(i).err)
               && (r.account !in env.ingesters ==> r.messages == [] && r.err == Some(NoIngester))
  {
    FetchAllResult(env, states, steps);
  }

  /** A written slot is never written again. */
  lemma {:induction false} SlotStays(env: Env, states: seq<State>, steps: seq<Step>, k: nat, n: nat, i: nat)
    requires IsRun(env, states, steps) && k <= n < |states| && i < |env.accounts|
    requires |states[k].results| == |env.accounts| && states[k].results[i].Some?
    ensures |states[n].results| == |env.accounts| && states[n].results[i] == states[k].results[i]
  {
    RunInv(env, states, steps, n);
    if k < n {
      SlotStays(env, states, steps, k, n - 1, i);
      RunInv(env, states, steps, n - 1);
      assert SlotOk(env, states[n - 1], i);
      assert Next(env, states[n - 1], steps[n - 1], states[n]);
    }
  }

  /**
    Cancellation by the caller does not touch what was there before: a slot written by then
    holds the sequential result to the end.
   */
  lemma {:induction false} WrittenBeforeCancel(env: Env, states: seq<State>, steps: seq<Step>, k: nat, n: nat, i: nat)
    requires IsRun(env, states, steps) && k <= n < |states| && i < |env.accounts|
    requires |states[k].results| == |env.accounts| && states[k].results[i].Some? && CancelParent !in steps[..k]
    ensures |states[n].results| == |env.accounts| && states[n].results[i] == Some(Sequential(env, i))
  {
    hide Next, SlotOk;
    CancellationStays(env, states[..k + 1], steps[..k], k);
    RunInv(env, states, steps, k);
    WrittenSlot(env, states[k], i);
    SlotStays(env, states, steps, k, n, i);
  }

  lemma {:induction false} WrittenSlot(env: Env, s: State, i: nat)
    requires Inv(env, s) && i < |s.results| && s.results[i].Some? && !s.parentCancelled
    ensures s.results[i] == Some(Sequential(env, i))
  {
    assert SlotOk(env, s, i);
  }

  lemma {:induction false} CancellationKept(env: Env, states: seq<State>, steps: seq<Step>, k: nat, n: nat)
    requires IsRun(env, states, steps) && k <= n < |states| && states[k].parentCancelled
    ensures states[n].parentCancelled
  {
    if k < n {
      CancellationKept(env, states, steps, k, n - 1);
      assert Next(env, states[n - 1], steps[n - 1], states[n]);
    }
  }

  /** An account whose turn comes after the cancellation is not fetched: its slot says so to the end. */
  lemma {:induction false} CancelledExactly(env: Env, states: seq<State>, steps: seq<Step>, j: nat, k: nat, i: nat)
    requires IsRun(env, states, steps) && j < k < |steps| && steps[j] == CancelParent && steps[k] == Check(i)
    ensures var results := states[|steps|].results;
            i < |env.accounts| == |results| && results[i] == Some(FetchResult(env.accounts[i], [], Some(Cancelled)))
  {
    assert Next(env, states[j], CancelParent, states[j + 1]);
    CancellationKept(env, states, steps, j + 1, k);
    assert Next(env, states[k], Check(i), states[k + 1]);
    SlotStays(env, states, steps, k + 1, |steps|, i);
  }

  // ---------------------------------------------------------------------------
  // Every run ends, and ends finished
  // ---------------------------------------------------------------------------

  function Work(p: Phase): nat {
    match p
    case NotStarted => 4
    case Started => 3
    case Fetching => 2
    case Returning(_) => 1
    case Done => 0
  }

  function TotalWork(phases: seq<Phase>): nat {
    if phases == [] then 0 else TotalWork(phases[..|phases| - 1]) + Work(phases[|phases| - 1])
  }

  function Remaining(s: State): nat {
    TotalWork(s.phases) + (if s.parentCancelled then 0 else 1)
  }

  lemma {:induction false} TotalWorkUpdate(phases: seq<Phase>, i: nat, p: Phase)
    requires i < |phases|
    ensures TotalWork(phases[i := p]) == TotalWork(phases) - Work(phases[i]) + Work(p)
  {
    var n := |phases| - 1;
    if i < n {
      assert phases[i := p][..n] == phases[..n][i := p];
      TotalWorkUpdate(phases[..n], i, p);
    } else {
      assert phases[i := p][..n] == phases[..n];
    }
  }

  lemma {:induction false} TotalWorkInit(phases: seq<Phase>)
    requires forall i :: 0 <= i < |phases| ==> phases[i] == NotStarted
    ensures TotalWork(phases) == 4 * |phases|
  {
    if phases != [] { TotalWorkInit(phases[..|phases| - 1]); }
  }

  lemma {:induction false} StepUsesWork(env: Env, s: State, step: Step, s': State)
    requires Inv(env, s) && Next(env, s, step, s')
    ensures Remaining(s') < Remaining(s)
  {
    match step
    case Spawn =>
      assert SlotOk(env, s, s.next);
      TotalWorkUpdate(s.phases, s.next, Started);
    case CancelParent =>
    case Check(i) => TotalWorkUpdate(s.phases, i, s'.phases[i]);
    case Complete(i, outcome) => TotalWorkUpdate(s.phases, i, s'.phases[i]);
    case Return(i) => TotalWorkUpdate(s.phases, i, Done);
  }

  /** No run has more than four steps per account and one cancellation. */
  lemma {:induction false} RunLength(env: Env, states: seq<State>, steps: seq<Step>, k: nat)
    requires IsRun(env, states, steps) && k < |states|
    ensures k + Remaining(states[k]) <= 4 * |env.accounts| + 1
  {
    if k == 0 {
      TotalWorkInit(Init(env).phases);
    } else {
      RunLength(env, states, steps, k - 1);
      RunInv(env, states, steps, k - 1);
      StepUsesWork(env, states[k - 1], steps[k - 1], states[k]);
    }
  }

  /** The pool never gets stuck: until it is finished, some goroutine or the spawning loop can go on. */
  lemma {:induction false} NeverStuck(env: Env, s: State) returns (step: Step, s': State)
    requires Inv(env, s) && !Finished(s)
    ensures step != CancelParent && Next(env, s, step, s')
  {
    if Active(s.phases) == 0 {
      if s.next == |s.phases| {
        var i :| 0 <= i < |s.phases| && s.phases[i] != Done;
        assert SlotOk(env, s, i);
        ActiveCounts(s.phases, i);
      }
      step := Spawn;
      s' := s.(next := s.next + 1, phases := s.phases[s.next := Started]);
    } else {
      var i := SomeoneActive(s.phases);
      match s.phases[i]
      case Started =>
        step := Check(i);
        s' := if s.ContextDone() then Written(s, i, FetchResult(env.accounts[i], [], Some(Cancelled)))
              else if env.accounts[i] !in env.ingesters
              then Written(s, i, FetchResult(env.accounts[i], [], Some(NoIngester)))
              else s.(phases := s.phases[i := Fetching]);
      case Fetching =>
        step := Complete(i, env.fetch(i));
        s' := Written(s, i, FetchResult(env.accounts[i], env.fetch(i).messages, env.fetch(i).err));
      case Returning(e) =>
        step := Return(i);
        s' := s.(phases := s.phases[i := Done], groupFailed := s.groupFailed || e.Some?);
    }
  }

  lemma {:induction false} ActiveCounts(phases: seq<Phase>, i: nat)
    requires i < |phases| && IsActive(phases[i])
    ensures Active(phases) > 0
  {
    if i < |phases| - 1 { ActiveCounts(phases[..|phases| - 1], i); }
  }

  // ---------------------------------------------------------------------------
  // Reading the results
  // ---------------------------------------------------------------------------

  function Flattened(results: seq<FetchResult>): seq<Message> {
    if results == [] then []
    else Flattened(results[..|results| - 1])
         + (if results[|results| - 1].err == None then results[|results| - 1].messages else [])
  }

  /** `FlattenMessages`: messages of accounts with an error are left out. */
  method FlattenMessages(results: seq<FetchResult>) returns (out: seq<Message>)
    ensures out == Flattened(results)
  {
    out := [];
    for i := 0 to |results|
      invariant out == Flattened(results[..i])
    {
      assert results[..i + 1][..i] == results[..i];
      if results[i].err == None { out := out + results[i].messages; }
    }
    assert results[..|results|] == results;
  }

  /** Results are flattened one after the other. */
  lemma {:induction false} FlattenedConcat(a: seq<FetchResult>, b: seq<FetchResult>)
    ensures Flattened(a + b) == Flattened(a) + Flattened(b)
  {
    if b == [] {
      assert a + b == a;
    } else {
      var n := |b| - 1;
      FlattenedConcat(a, b[..n]);
      assert (a + b)[..|a + b| - 1] == a + b[..n];
    }
  }

  /** The messages of the accounts without an error, and no others. */
  lemma {:induction false} FlattenedMembers(results: seq<FetchResult>, m: Message)
    ensures m in Flattened(results) <==> exists r :: r in results && r.err == None && m in r.messages
  {
    if results != [] {
      var init, last := results[..|results| - 1], results[|results| - 1];
      FlattenedMembers(init, m);
      assert forall r :: r in results <==> r in init || r == last;
    }
  }

  /** The last error of every failed account. */
  function ErrorsByAccount(results: seq<FetchResult>): map<string, FetchError> {
    if results == [] then map[]
    else
      var before, last := ErrorsByAccount(results[..|results| - 1]), results[|results| - 1];
      if last.err.Some? then before[last.account := last.err.value] else before
  }

  /** `AccountErrors`: the labels of failed accounts, each with an error of that account. */
  method AccountErrors(results: seq<FetchResult>) returns (errs: map<string, FetchError>)
    ensures errs == ErrorsByAccount(results)
    ensures forall l :: l in errs <==> exists i :: 0 <= i < |results| && results[i].account == l && results[i].err.Some?
    ensures forall l :: l in errs ==>
              exists i :: 0 <= i < |results| && results[i].account == l && results[i].err == Some(errs[l])
  {
    errs := map[];
    for n := 0 to |results|
      invariant errs == ErrorsByAccount(results[..n])
      invariant forall l :: l in errs <==> exists i :: 0 <= i < n && results[i].account == l && results[i].err.Some?
      invariant forall l :: l in errs ==>
        exists i :: 0 <= i < n && results[i].account == l && results[i].err == Some(errs[l])
    {
      assert results[..n + 1][..n] == results[..n];
      if results[n].err.Some? { errs := errs[results[n].account := results[n].err.value]; }
    }
    assert results[..|results|] == results;
  }

  function Fresh(messages: seq<Message>, processed: set<MessageKey>): seq<Message> {
    if messages == [] then []
    else Fresh(messages[..|messages| - 1], processed)
         + (if messages[|messages| - 1].Key() in processed then [] else [messages[|messages| - 1]])
  }

  /** `FilterAlreadyProcessed`. */
  method FilterAlreadyProcessed(messages: seq<Message>, processed: set<MessageKey>) returns (out: seq<Message>)
    ensures out == Fresh(messages, processed)
  {
    if processed == {} {
      FreshOfNone(messages);
      return messages;
    }
    out := [];
    for i := 0 to |messages|
      invariant out == Fresh(messages[..i], processed)
    {
      assert messages[..i + 1][..i] == messages[..i];
      if messages[i].Key() !in processed { out := out + [messages[i]]; }
    }
    assert messages[..|messages|] == messages;
  }

  lemma {:induction false} FreshOfNone(messages: seq<Message>)
    ensures Fresh(messages, {}) == messages
  {
    if messages != [] {
      FreshOfNone(messages[..|messages| - 1]);
      assert messages == messages[..|messages| - 1] + [messages[|messages| - 1]];
    }
  }

  /** Messages are filtered one by one, in order. */
  lemma {:induction false} FreshConcat(a: seq<Message>, b: seq<Message>, processed: set<MessageKey>)
    ensures Fresh(a + b, processed) == Fresh(a, processed) + Fresh(b, processed)
  {
    if b == [] {
      assert a + b == a;
    } else {
      var n := |b| - 1;
      FreshConcat(a, b[..n], processed);
      assert (a + b)[..|a + b| - 1] == a + b[..n];
    }
  }

  lemma {:induction false} NoneFresh(messages: seq<Message>, processed: set<MessageKey>)
    requires forall m :: m in messages ==> m.Key() in processed
    ensures Fresh(messages, processed) == []
  {
    if messages != [] { NoneFresh(messages[..|messages| - 1], processed); }
  }

  /** Only the keys of the messages themselves matter. */
  lemma {:induction false} FreshAgrees(messages: seq<Message>, a: set<MessageKey>, b: set<MessageKey>)
    requires forall m :: m in messages ==> (m.Key() in a <==> m.Key() in b)
    ensures Fresh(messages, a) == Fresh(messages, b)
  {
    if messages != [] {
      assert messages[|messages| - 1] in messages;
      FreshAgrees(messages[..|messages| - 1], a, b);
    }
  }

  lemma {:induction false} FreshMembers(messages: seq<Message>, processed: set<MessageKey>)
    ensures forall m :: m in Fresh(messages, processed) <==> m in messages && m.Key() !in processed
  {
    if messages != [] {
      var init, last := messages[..|messages| - 1], messages[|messages| - 1];
      FreshMembers(init, processed);
      assert forall m :: m in messages <==> m in init || m == last;
    }
  }
}
