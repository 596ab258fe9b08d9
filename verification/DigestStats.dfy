/**
  `buildDigestStats`: global and per-account statistics, filled in step by step, and the
  conservation laws between them.
 */
module DigestStats {
  import opened Text
  import opened Decimal
  import opened Mail
  import opened Counting
  import opened Selection
  import FetchPool
  import Classify
  import Ranking
  import Address

  const TOP_COUNT := 5

  datatype AccountStats = AccountStats(
    account: string, fetched: nat, classified: nat, failed: nat, read: nat, unread: nat,
    countsByLabel: map<string, nat>, status: string, error: Option<FetchPool.FetchError>,
    analysisFailed: nat, topSenders: seq<string>, topDomains: seq<string>)

  datatype GlobalStats = GlobalStats(
    fetched: nat, classified: nat, failed: nat, read: nat, unread: nat, countsByLabel: map<string, nat>,
    accountsChecked: nat, accountsSucceeded: int, accountsFailed: nat, highPriority: nat,
    analysisFailed: nat, topSenders: seq<string>, topDomains: seq<string>)

  function FreshStats(account: string): AccountStats {
    AccountStats(account, 0, 0, 0, 0, 0, map[], "ok", None, 0, [], [])
  }

  // ---------------------------------------------------------------------------
  // Specification
  // ---------------------------------------------------------------------------

  function AccountOf(m: Message): string { m.account }

  function EntryAccount(e: Entry): string { e.classification.key.account }

  predicate Any<T>(x: T) { true }

  predicate IsRead(m: Message) { m.isRead }

  predicate IsUnread(m: Message) { !m.isRead }

  function IsClassified(keys: set<MessageKey>): Entry -> bool {
    (e: Entry) => e.classification.key in keys
  }

  function IsUnclassified(keys: set<MessageKey>): Entry -> bool {
    (e: Entry) => e.classification.key !in keys
  }

  /** Classified, and of a priority that equals "high" under case folding. */
  function IsUrgent(keys: set<MessageKey>): Entry -> bool {
    (e: Entry) => e.classification.key in keys && AsciiLower(e.classification.priority) == "high"
  }

  function SenderOf(m: Message): string { Address.ParseSender(m.from).0 }

  function DomainOf(m: Message): string { Address.ParseSender(m.from).1 }

  /** The sender of the messages of one account; other messages have none. */
  function SenderIn(account: string): Message -> string {
    (m: Message) => if m.account == account then SenderOf(m) else ""
  }

  function DomainIn(account: string): Message -> string {
    (m: Message) => if m.account == account then DomainOf(m) else ""
  }

  function LabelIn(account: string): Entry -> string {
    (e: Entry) => if EntryAccount(e) == account then LabelOf(e) else ""
  }

  /** The counters of one account, without its top lists. */
  function Stats(account: string, ms: seq<Message>, es: seq<Entry>, keys: set<MessageKey>,
                 errors: map<string, FetchPool.FetchError>): AccountStats {
    AccountStats(
      account, InGroup(ms, AccountOf, Any, account),
      InGroup(es, EntryAccount, IsClassified(keys), account),
      InGroup(es, EntryAccount, IsUnclassified(keys), account),
      InGroup(ms, AccountOf, IsRead, account), InGroup(ms, AccountOf, IsUnread, account),
      Tally(es, LabelIn(account)),
      if account in errors then "error" else "ok",
      if account in errors then Some(errors[account]) else None,
      0, [], [])
  }

  ghost function TopNames(ms: seq<Message>, name: Message -> string): seq<string> {
    Ranking.CountTexts(Ranking.Top(Tally(ms, name), TOP_COUNT))
  }

  ghost function FinalStats(account: string, ms: seq<Message>, es: seq<Entry>, keys: set<MessageKey>,
                            errors: map<string, FetchPool.FetchError>): AccountStats {
    Stats(account, ms, es, keys, errors).(
      topSenders := TopNames(ms, SenderIn(account)), topDomains := TopNames(ms, DomainIn(account)))
  }

  /** The global counters, before the accounts are counted and without the top lists. */
  function Totals(ms: seq<Message>, es: seq<Entry>, keys: set<MessageKey>, fetched: nat, classified: nat): GlobalStats {
    GlobalStats(
      fetched, classified, Count(es, IsUnclassified(keys)), Count(ms, IsRead), Count(ms, IsUnread),
      Tally(es, LabelOf), 0, 0, 0, Count(es, IsUrgent(keys)), 0, [], [])
  }

  ghost function FinalTotals(ms: seq<Message>, es: seq<Entry>, cs: seq<Classification>,
                             errors: map<string, FetchPool.FetchError>, accounts: nat): GlobalStats {
    Totals(ms, es, Classify.KeySet(cs), |ms|, |cs|).(
      accountsChecked := accounts, accountsFailed := |errors|, accountsSucceeded := accounts - |errors|,
      topSenders := TopNames(ms, SenderOf), topDomains := TopNames(ms, DomainOf))
  }

  /** The accounts a digest reports on. */
  ghost predicate Covers(account: string, results: seq<FetchPool.FetchResult>,
                         errors: map<string, FetchPool.FetchError>, ms: seq<Message>, es: seq<Entry>) {
    || (exists r :: r in results && r.account == account)
    || account in errors
    || (exists m :: m in ms && m.account == account)
    || (exists e :: e in es && EntryAccount(e) == account)
  }

  // ---------------------------------------------------------------------------
  // One more message, one more entry
  // ---------------------------------------------------------------------------

  function WithMessage(s: AccountStats, m: Message): AccountStats {
    s.(fetched := s.fetched + 1,
       read := s.read + (if m.isRead then 1 else 0),
       unread := s.unread + (if m.isRead then 0 else 1))
  }

  function WithEntry(s: AccountStats, e: Entry, keys: set<MessageKey>): AccountStats {
    var known := e.classification.key in keys;
    s.(countsByLabel := Bumped(s.countsByLabel, LabelOf(e)),
       classified := s.classified + (if known then 1 else 0),
       failed := s.failed + (if known then 0 else 1))
  }

  lemma {:induction false} InGroupAppend<T>(s: seq<T>, x: T, group: T -> string, p: T -> bool, l: string)
    ensures InGroup(s + [x], group, p, l) == InGroup(s, group, p, l) + (if group(x) == l && p(x) then 1 else 0)
  {
    CountAppend(s, x, y => group(y) == l && p(y));
  }

  lemma {:induction false} StatsMessage(l: string, ms: seq<Message>, m: Message, es: seq<Entry>,
                                        keys: set<MessageKey>, errors: map<string, FetchPool.FetchError>)
    ensures Stats(l, ms + [m], es, keys, errors) ==
            if l == m.account then WithMessage(Stats(l, ms, es, keys, errors), m) else Stats(l, ms, es, keys, errors)
  {
    InGroupAppend(ms, m, AccountOf, Any, l);
    InGroupAppend(ms, m, AccountOf, IsRead, l);
    InGroupAppend(ms, m, AccountOf, IsUnread, l);
  }

  lemma {:induction false} StatsEntry(l: string, ms: seq<Message>, es: seq<Entry>, e: Entry, keys: set<MessageKey>,
                                      errors: map<string, FetchPool.FetchError>)
    ensures Stats(l, ms, es + [e], keys, errors) ==
            if l == EntryAccount(e) then WithEntry(Stats(l, ms, es, keys, errors), e, keys)
            else Stats(l, ms, es, keys, errors)
  {
    InGroupAppend(es, e, EntryAccount, IsClassified(keys), l);
    InGroupAppend(es, e, EntryAccount, IsUnclassified(keys), l);
    TallyAppend(es, e, LabelIn(l));
  }

  // ---------------------------------------------------------------------------
  // The tables the program fills
  // ---------------------------------------------------------------------------

  /** The accounts seen so far, in the order they were first seen. */
  class AccountTable {
    var stats: map<string, AccountStats>
    var order: seq<string>

    ghost predicate Valid()
      reads this
    {
      Distinct(order) && forall l :: l in order <==> l in stats
    }

    /** The counters of an account; those of an unseen account are all zero. */
    function Of(l: string): AccountStats
      reads this
    {
      if l in stats then stats[l] else FreshStats(l)
    }

    /** Every account is counted exactly. */
    ghost predicate Holds(ms: seq<Message>, es: seq<Entry>, keys: set<MessageKey>,
                          errors: map<string, FetchPool.FetchError>)
      reads this
    {
      Valid() && forall l :: Of(l) == Stats(l, ms, es, keys, errors)
    }

    constructor ()
      ensures Valid() && order == [] && forall l :: Of(l) == FreshStats(l)
    {
      stats := map[];
      order := [];
    }

    /** `ensureAccount`. */
    method Ensure(l: string)
      requires Valid()
      modifies this
      ensures Valid() && forall k :: Of(k) == old(Of(k))
      ensures order == if l in old(order) then old(order) else old(order) + [l]
    {
      if l !in stats {
        stats := stats[l := FreshStats(l)];
        order := order + [l];
      }
    }

    /** `ensureAccount`, and an update through the pointer it returns. */
    method Update(l: string, s: AccountStats)
      requires Valid()
      modifies this
      ensures Valid() && forall k :: Of(k) == if k == l then s else old(Of(k))
      ensures order == if l in old(order) then old(order) else old(order) + [l]
    {
      Ensure(l);
      stats := stats[l := s];
    }

    method CountMessage(m: Message, ghost ms: seq<Message>, ghost keys: set<MessageKey>,
                        ghost errors: map<string, FetchPool.FetchError>)
      requires Holds(ms, [], keys, errors)
      modifies this
      ensures Holds(ms + [m], [], keys, errors)
      ensures order == if m.account in old(order) then old(order) else old(order) + [m.account]
    {
      hide Stats;
      Update(m.account, WithMessage(Of(m.account), m));
      forall l
        ensures Of(l) == Stats(l, ms + [m], [], keys, errors)
      {
        StatsMessage(l, ms, m, [], keys, errors);
      }
    }

    method CountEntry(e: Entry, keys: set<MessageKey>, ghost ms: seq<Message>, ghost es: seq<Entry>,
                      ghost errors: map<string, FetchPool.FetchError>)
      requires Holds(ms, es, keys, errors)
      modifies this
      ensures Holds(ms, es + [e], keys, errors)
      ensures order == if EntryAccount(e) in old(order) then old(order) else old(order) + [EntryAccount(e)]
    {
      hide Stats, Bumped;
      Update(EntryAccount(e), WithEntry(Of(EntryAccount(e)), e, keys));
      forall l
        ensures Of(l) == Stats(l, ms, es + [e], keys, errors)
      {
        StatsEntry(l, ms, es, e, keys, errors);
      }
    }
  }

  /** Sender and domain frequencies, overall and per account. */
  class SenderTable {
    var senders: map<string, nat>
    var domains: map<string, nat>
    var accountSenders: map<string, map<string, nat>>
    var accountDomains: map<string, map<string, nat>>

    ghost predicate Counts(ms: seq<Message>)
      reads this
    {
      && senders == Tally(ms, SenderOf)
      && domains == Tally(ms, DomainOf)
      && (forall l :: CountsOf(accountSenders, l) == Tally(ms, SenderIn(l)))
      && (forall l :: CountsOf(accountDomains, l) == Tally(ms, DomainIn(l)))
    }

    constructor ()
      ensures Counts([])
    {
      senders, domains, accountSenders, accountDomains := map[], map[], map[], map[];
    }

    /** `trackMessageSenders`. */
    method Track(m: Message, ghost before: seq<Message>)
      requires Counts(before)
      modifies this
      ensures Counts(before + [m])
    {
      hide Address.ParseSender, Tally, SenderIn, DomainIn, Bumped, CountsOf, BumpedAt;
      var (sender, domain) := Address.ParseSender(m.from);
      senders, domains := Bumped(senders, sender), Bumped(domains, domain);
      accountSenders := BumpedAt(accountSenders, m.account, sender);
      accountDomains := BumpedAt(accountDomains, m.account, domain);
      SendersAppend(before, m);
    }
  }

  lemma {:induction false} SendersAppend(ms: seq<Message>, m: Message)
    ensures Tally(ms + [m], SenderOf) == Bumped(Tally(ms, SenderOf), SenderOf(m))
    ensures Tally(ms + [m], DomainOf) == Bumped(Tally(ms, DomainOf), DomainOf(m))
    ensures forall l :: Tally(ms + [m], SenderIn(l)) ==
              Bumped(Tally(ms, SenderIn(l)), if l == m.account then SenderOf(m) else "")
    ensures forall l :: Tally(ms + [m], DomainIn(l)) ==
              Bumped(Tally(ms, DomainIn(l)), if l == m.account then DomainOf(m) else "")
  {
    hide Tally, Bumped, Address.ParseSender;
    TallyAppend(ms, m, SenderOf);
    TallyAppend(ms, m, DomainOf);
    forall l
      ensures Tally(ms + [m], SenderIn(l)) == Bumped(Tally(ms, SenderIn(l)), if l == m.account then SenderOf(m) else "")
      ensures Tally(ms + [m], DomainIn(l)) == Bumped(Tally(ms, DomainIn(l)), if l == m.account then DomainOf(m) else "")
    {
      TallyAppend(ms, m, SenderIn(l));
      TallyAppend(ms, m, DomainIn(l));
    }
  }

  /** Reading a nested frequency map; an absent map counts nothing. */
  function CountsOf(m: map<string, map<string, nat>>, l: string): map<string, nat> {
    if l in m then m[l] else map[]
  }

  function BumpedAt(m: map<string, map<string, nat>>, at: string, name: string): (r: map<string, map<string, nat>>)
    ensures forall l :: CountsOf(r, l) == Bumped(CountsOf(m, l), if l == at then name else "")
  {
    if name == "" then m else m[at := Bumped(CountsOf(m, at), name)]
  }

  // ---------------------------------------------------------------------------
  // The loops of the program
  // ---------------------------------------------------------------------------

  function FirstSeen(names: seq<string>): seq<string> {
    if names == [] then []
    else
      var seen, last := FirstSeen(names[..|names| - 1]), names[|names| - 1];
      if last in seen then seen else seen + [last]
  }

  function ResultAccounts(results: seq<FetchPool.FetchResult>): seq<string> {
    seq(|results|, i requires 0 <= i < |results| => results[i].account)
  }

  lemma {:induction false} FirstSeenMembers(names: seq<string>)
    ensures forall l :: l in FirstSeen(names) <==> l in names
  {
    if names != [] {
      var init := names[..|names| - 1];
      FirstSeenMembers(init);
      assert forall l :: l in names <==> l in init || l == names[|names| - 1];
    }
  }

  /** The fetched accounts come first, in fetch order. */
  method OpenAccounts(results: seq<FetchPool.FetchResult>) returns (table: AccountTable)
    ensures fresh(table) && table.Valid()
    ensures forall l :: table.Of(l) == FreshStats(l)
    ensures table.order == FirstSeen(ResultAccounts(results))
    ensures forall l :: l in table.order <==> exists r :: r in results && r.account == l
  {
    table := new AccountTable();
    ghost var names := ResultAccounts(results);
    for i := 0 to |results|
      invariant table.Valid() && table.order == FirstSeen(names[..i])
      invariant forall l :: table.Of(l) == FreshStats(l)
    {
      assert names[..i + 1][..i] == names[..i];
      table.Ensure(results[i].account);
    }
    assert names[..|results|] == names;
    FirstSeenMembers(names);
    AccountMembers(results);
  }

  function Marked(l: string, errors: map<string, FetchPool.FetchError>, done: set<string>): AccountStats {
    if l in errors && l in done then FreshStats(l).(status := "error", error := Some(errors[l])) else FreshStats(l)
  }

  /** The loop over the failed accounts, in whatever order the map yields them. */
  method MarkFailed(table: AccountTable, errors: map<string, FetchPool.FetchError>, ghost keys: set<MessageKey>)
    requires table.Valid() && forall l :: table.Of(l) == FreshStats(l)
    modifies table
    ensures table.Holds([], [], keys, errors)
    ensures forall l :: l in table.order <==> l in old(table.order) || l in errors
    ensures old(table.order) <= table.order
  {
    hide Stats;
    var rest := errors.Keys;
    while rest != {}
      invariant table.Valid() && rest <= errors.Keys
      invariant old(table.order) <= table.order
      invariant forall l :: l in table.order <==> l in old(table.order) || l in errors.Keys - rest
      invariant forall l :: table.Of(l) == Marked(l, errors, errors.Keys - rest)
    {
      var l :| l in rest;
      table.Update(l, table.Of(l).(status := "error", error := Some(errors[l])));
      rest := rest - {l};
    }
    forall l ensures table.Of(l) == Stats(l, [], [], keys, errors) { StatsOfNothing(l, keys, errors); }
  }

  lemma {:induction false} AccountMembers(results: seq<FetchPool.FetchResult>)
    ensures forall l :: l in ResultAccounts(results) <==> exists r :: r in results && r.account == l
  {
    forall l | exists r :: r in results && r.account == l
      ensures l in ResultAccounts(results)
    {
      var i :| 0 <= i < |results| && results[i].account == l;
      assert ResultAccounts(results)[i] == l;
    }
  }

  lemma {:induction false} StatsOfNothing(l: string, keys: set<MessageKey>, errors: map<string, FetchPool.FetchError>)
    ensures Stats(l, [], [], keys, errors) ==
            if l in errors then FreshStats(l).(status := "error", error := Some(errors[l])) else FreshStats(l)
  {
  }

  method CountMessages(ms: seq<Message>, table: AccountTable, start: GlobalStats, ghost keys: set<MessageKey>,
                       ghost errors: map<string, FetchPool.FetchError>)
      returns (global: GlobalStats, tallies: SenderTable)
    requires table.Holds([], [], keys, errors)
    requires start.read == start.unread == 0
    modifies table
    ensures table.Holds(ms, [], keys, errors)
    ensures old(table.order) <= table.order
    ensures forall l :: l in table.order <==> l in old(table.order) || exists m :: m in ms && m.account == l
    ensures global == start.(read := Count(ms, IsRead), unread := Count(ms, IsUnread))
    ensures fresh(tallies) && tallies.Counts(ms)
  {
    hide AccountTable.Holds, Count, SenderTable.Counts;
    global := start;
    tallies := new SenderTable();
    assert Count([], IsRead) == Count([], IsUnread) == 0 by { CountNone(IsRead); CountNone(IsUnread); }
    for i := 0 to |ms|
      invariant table.Holds(ms[..i], [], keys, errors)
      invariant old(table.order) <= table.order
      invariant forall l :: l in table.order <==> l in old(table.order) || exists m :: m in ms[..i] && m.account == l
      invariant global == start.(read := Count(ms[..i], IsRead), unread := Count(ms[..i], IsUnread))
      invariant fresh(tallies) && tallies.Counts(ms[..i])
    {
      var m := ms[i];
      assert ms[..i + 1] == ms[..i] + [m];
      CountAppend(ms[..i], m, IsRead);
      CountAppend(ms[..i], m, IsUnread);
      table.CountMessage(m, ms[..i], keys, errors);
      if m.isRead {
        global := global.(read := global.read + 1);
      } else {
        global := global.(unread := global.unread + 1);
      }
      tallies.Track(m, ms[..i]);
    }
    assert ms[..|ms|] == ms;
  }

  lemma {:induction false} CountNone<T>(p: T -> bool)
    ensures Count([], p) == 0
  {
  }

  /** `processClassificationEntries`. */
  method ProcessClassificationEntries(es: seq<Entry>, table: AccountTable, start: GlobalStats, keys: set<MessageKey>,
                                      ghost ms: seq<Message>, ghost errors: map<string, FetchPool.FetchError>)
      returns (global: GlobalStats)
    requires table.Holds(ms, [], keys, errors)
    requires start.failed == start.highPriority == 0 && start.countsByLabel == map[]
    modifies table
    ensures table.Holds(ms, es, keys, errors)
    ensures old(table.order) <= table.order
    ensures forall l :: l in table.order <==> l in old(table.order) || exists e :: e in es && EntryAccount(e) == l
    ensures global == start.(failed := Count(es, IsUnclassified(keys)), highPriority := Count(es, IsUrgent(keys)),
                             countsByLabel := Tally(es, LabelOf))
  {
    hide AccountTable.Holds, Count, Tally, LabelOf, Bumped;
    global := start;
    EntriesNone(keys);
    for i := 0 to |es|
      invariant table.Holds(ms, es[..i], keys, errors)
      invariant old(table.order) <= table.order
      invariant forall l ::
        l in table.order <==> l in old(table.order) || exists e :: e in es[..i] && EntryAccount(e) == l
      invariant global == start.(failed := Count(es[..i], IsUnclassified(keys)),
                                 highPriority := Count(es[..i], IsUrgent(keys)),
                                 countsByLabel := Tally(es[..i], LabelOf))
    {
      var e := es[i];
      assert es[..i + 1] == es[..i] + [e];
      CountAppend(es[..i], e, IsUnclassified(keys));
      CountAppend(es[..i], e, IsUrgent(keys));
      TallyAppend(es[..i], e, LabelOf);
      global := global.(countsByLabel := Bumped(global.countsByLabel, LabelOf(e)));
      table.CountEntry(e, keys, ms, es[..i], errors);
      if e.classification.key in keys {
        if AsciiLower(e.classification.priority) == "high" {
          global := global.(highPriority := global.highPriority + 1);
        }
      } else {
        global := global.(failed := global.failed + 1);
      }
    }
    assert es[..|es|] == es;
  }

  lemma {:induction false} EntriesNone(keys: set<MessageKey>)
    ensures Count([], IsUnclassified(keys)) == Count([], IsUrgent(keys)) == 0
    ensures Tally([], LabelOf) == map[]
  {
  }

  lemma {:induction false} ErrorStatus(ms: seq<Message>, es: seq<Entry>, keys: set<MessageKey>,
                                       errors: map<string, FetchPool.FetchError>)
    ensures forall l :: (Stats(l, ms, es, keys, errors).status == "error" <==> l in errors)
                     && Stats(l, ms, es, keys, errors).account == l
  {
    hide InGroup, Tally;
  }

  /** How many of the accounts carry an error. */
  method CountFailed(table: AccountTable, ghost errors: map<string, FetchPool.FetchError>) returns (failed: nat)
    requires table.Valid()
    requires forall l :: table.Of(l).status == "error" <==> l in errors
    requires forall l :: l in errors ==> l in table.order
    ensures failed == |errors|
  {
    failed := 0;
    var order := table.order;
    for i := 0 to |order|
      invariant failed == Count(order[..i], l => l in errors.Keys)
    {
      assert order[..i + 1] == order[..i] + [order[i]];
      CountAppend(order[..i], order[i], l => l in errors.Keys);
      if table.Of(order[i]).status == "error" { failed := failed + 1; }
    }
    assert order[..|order|] == order;
    CountMembers(order, errors.Keys, l => l in errors.Keys);
    assert SetOf(order) * errors.Keys == errors.Keys;
  }

  method FinishAccounts(table: AccountTable, tallies: SenderTable, ghost ms: seq<Message>)
      returns (accounts: seq<AccountStats>)
    requires table.Valid() && tallies.Counts(ms)
    ensures |accounts| == |table.order|
    ensures forall i :: 0 <= i < |accounts| ==>
              accounts[i] == table.Of(table.order[i]).(topSenders := TopNames(ms, SenderIn(table.order[i])),
                                                       topDomains := TopNames(ms, DomainIn(table.order[i])))
  {
    hide Ranking.Top, Tally;
    accounts := [];
    for i := 0 to |table.order|
      invariant |accounts| == i
      invariant forall k :: 0 <= k < i ==>
        accounts[k] == table.Of(table.order[k]).(topSenders := TopNames(ms, SenderIn(table.order[k])),
                                                 topDomains := TopNames(ms, DomainIn(table.order[k])))
    {
      var l := table.order[i];
      var senders := Ranking.TopN(CountsOf(tallies.accountSenders, l), TOP_COUNT);
      var domains := Ranking.TopN(CountsOf(tallies.accountDomains, l), TOP_COUNT);
      accounts := accounts + [table.Of(l).(topSenders := senders, topDomains := domains)];
    }
  }

  /** The accounts are listed once each, in an order that starts with the fetch order. */
  ghost predicate AccountsListed(accounts: seq<AccountStats>, results: seq<FetchPool.FetchResult>,
                                 errors: map<string, FetchPool.FetchError>, ms: seq<Message>, es: seq<Entry>) {
    && Distinct(AccountNames(accounts))
    && FirstSeen(ResultAccounts(results)) <= AccountNames(accounts)
    && forall l :: l in AccountNames(accounts) <==> Covers(l, results, errors, ms, es)
  }

  function AccountNames(accounts: seq<AccountStats>): seq<string> {
    seq(|accounts|, i requires 0 <= i < |accounts| => accounts[i].account)
  }

  /** The three passes over accounts, messages and entries. */
  method FillTable(ms: seq<Message>, es: seq<Entry>, keys: set<MessageKey>,
                   results: seq<FetchPool.FetchResult>, errors: map<string, FetchPool.FetchError>, start: GlobalStats)
      returns (table: AccountTable, global: GlobalStats, tallies: SenderTable)
    requires start == GlobalStats(start.fetched, start.classified, 0, 0, 0, map[], 0, 0, 0, 0, 0, [], [])
    ensures table.Holds(ms, es, keys, errors) && tallies.Counts(ms)
    ensures global == Totals(ms, es, keys, start.fetched, start.classified)
    ensures FirstSeen(ResultAccounts(results)) <= table.order
    ensures forall l :: l in table.order <==> Covers(l, results, errors, ms, es)
  {
    hide Count, Tally, AccountTable.Holds, FirstSeen, SenderTable.Counts, AccountTable.Of, IsUrgent, IsUnclassified;
    table := OpenAccounts(results);
    MarkFailed(table, errors, keys);
    global, tallies := CountMessages(ms, table, start, keys, errors);
    global := ProcessClassificationEntries(es, table, global, keys, ms, errors);
  }

  method BuildDigestStats(ms: seq<Message>, es: seq<Entry>, cs: seq<Classification>,
                          results: seq<FetchPool.FetchResult>, errors: map<string, FetchPool.FetchError>)
      returns (global: GlobalStats, accounts: seq<AccountStats>)
    ensures AccountsListed(accounts, results, errors, ms, es)
    ensures forall i :: 0 <= i < |accounts| ==>
              accounts[i] == FinalStats(accounts[i].account, ms, es, Classify.KeySet(cs), errors)
    ensures global == FinalTotals(ms, es, cs, errors, |accounts|)
  {
    hide Count, Tally, Stats, Totals, TopNames, FirstSeen, SenderTable.Counts, Covers;
    var keys := Classify.CollectKeys(cs);
    var start := GlobalStats(|ms|, |cs|, 0, 0, 0, map[], 0, 0, 0, 0, 0, [], []);
    var table, totals, tallies := FillTable(ms, es, keys, results, errors, start);
    ErrorStatus(ms, es, keys, errors);
    assert forall l :: l in errors ==> Covers(l, results, errors, ms, es) by { ErrorsCovered(results, errors, ms, es); }
    var failed := CountFailed(table, errors);
    var senders, domains := TopOverall(tallies, ms);
    var checked: nat := |table.order|;
    global := totals.(accountsChecked := checked, accountsFailed := failed, accountsSucceeded := checked - failed,
                      topSenders := senders, topDomains := domains);
    accounts := FinishAccounts(table, tallies, ms);
    assert AccountNames(accounts) == table.order;
  }

  lemma {:induction false} ErrorsCovered(results: seq<FetchPool.FetchResult>,
                                         errors: map<string, FetchPool.FetchError>, ms: seq<Message>, es: seq<Entry>)
    ensures forall l :: l in errors ==> Covers(l, results, errors, ms, es)
  {
  }

  method TopOverall(tallies: SenderTable, ghost ms: seq<Message>) returns (senders: seq<string>, domains: seq<string>)
    requires tallies.Counts(ms)
    ensures senders == TopNames(ms, SenderOf) && domains == TopNames(ms, DomainOf)
  {
    hide Ranking.Top, Tally;
    senders := Ranking.TopN(tallies.senders, TOP_COUNT);
    domains := Ranking.TopN(tallies.domains, TOP_COUNT);
  }

  /**
    The top lists name real senders with the number of their messages, and every sender
    left out has fewer messages, or as many and a later name, than each one listed.
   */
  lemma {:induction false} TopNamesExact(ms: seq<Message>, name: Message -> string)
    ensures var top := Ranking.Top(Tally(ms, name), TOP_COUNT);
            && TopNames(ms, name) == Ranking.CountTexts(top)
            && (forall c :: c in top ==> c.key != "" && c.n == Count(ms, (m: Message) => name(m) == c.key))
            && (forall k, c :: k in Tally(ms, name) && c in top && Ranking.Count(k, Get(Tally(ms, name), k)) !in top ==>
                  Ranking.Higher(c, Ranking.Count(k, Get(Tally(ms, name), k))))
            && (forall m :: m in ms && name(m) != "" ==> name(m) in Tally(ms, name))
  {
    hide Ranking.Top, Ranking.Higher, Tally;
    var counts := Tally(ms, name);
    Ranking.TopIsGreatest(counts, TOP_COUNT);
    forall c | c in Ranking.Top(counts, TOP_COUNT)
      ensures c.key != "" && c.n == Count(ms, (m: Message) => name(m) == c.key)
    {
      TallyExact(ms, name, c.key, (m: Message) => name(m) == c.key);
    }
    forall m | m in ms && name(m) != ""
      ensures name(m) in counts
    {
      TallyExact(ms, name, name(m), (x: Message) => name(x) == name(m));
    }
  }
}
