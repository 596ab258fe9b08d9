/**
  What a digest shows and counts, said on the messages, their classifications and the
  settings: which messages are kept, in what order, under which label, and the figures.
 */
module DigestLaws {
  import opened Text
  import opened Decimal
  import opened Mail
  import opened Counting
  import opened Classify
  import opened DigestStats
  import opened DigestData
  import opened Selection
  import opened Sorting
  import FetchPool
  import Ranking
  import ResponseParser

  // ---------------------------------------------------------------------------
  // Selection
  // ---------------------------------------------------------------------------

  /** The priority of an entry as written, but for case and outer white space. */
  function Priority(e: Entry): string {
    ToLower(Trim(e.classification.priority))
  }

  /** `a` may stand before `b`: high before medium before low before anything else, then the newer first. */
  predicate InOrder(a: Entry, b: Entry) {
    var p, q := Priority(a), Priority(b);
    && (q == "high" ==> p == "high")
    && (q == "medium" ==> p in ["high", "medium"])
    && (q == "low" ==> p in ["high", "medium", "low"])
    && (p == q ==> a.date >= b.date)
  }

  lemma {:induction false} OrderExactly(a: Entry, b: Entry)
    requires !ShownBefore(b, a)
    ensures InOrder(a, b)
  {
    hide Trim;
  }

  /** Truncation keeps the maximum, and no dropped message should have come before a kept one. */
  lemma {:induction false} KeptInOrder(ms: seq<Entry>, cfg: RenderConfig) returns (dropped: seq<Entry>)
    requires Truncates(ms, cfg)
    ensures multiset(Selected(ms, cfg)) + multiset(dropped) == multiset(Candidates(ms, cfg))
    ensures |Selected(ms, cfg)| == cfg.maxMessages
    ensures forall k, d :: k in Selected(ms, cfg) && d in dropped ==> InOrder(k, d)
    ensures forall i, j :: 0 <= i < j < |Selected(ms, cfg)| ==> InOrder(Selected(ms, cfg)[i], Selected(ms, cfg)[j])
  {
    hide ShownBefore, Selected, Candidates, InOrder;
    dropped := TruncationKeepsBest(ms, cfg);
    var kept := Selected(ms, cfg);
    forall k, d | k in kept && d in dropped
      ensures InOrder(k, d)
    {
      OrderExactly(k, d);
    }
    forall i, j | 0 <= i < j < |kept|
      ensures InOrder(kept[i], kept[j])
    {
      OrderExactly(kept[i], kept[j]);
    }
  }

  lemma {:induction false} FilterMembers<T>(s: seq<T>, p: T -> bool)
    ensures forall x :: x in Filter(s, p) <==> x in s && p(x)
  {
    if s != [] {
      FilterMembers(s[..|s| - 1], p);
      assert forall x :: x in s <==> x in s[..|s| - 1] || x == s[|s| - 1];
    }
  }

  lemma {:induction false} FilterConcat<T>(a: seq<T>, b: seq<T>, p: T -> bool)
    ensures Filter(a + b, p) == Filter(a, p) + Filter(b, p)
  {
    if b == [] {
      assert a + b == a;
    } else {
      FilterConcat(a, b[..|b| - 1], p);
      assert (a + b)[..|a + b| - 1] == a + b[..|b| - 1];
    }
  }

  /** Which messages are candidates, and when some of them are dropped. */
  lemma {:induction false} CandidatesExactly(ms: seq<Entry>, cfg: RenderConfig)
    ensures forall e :: e in Candidates(ms, cfg) <==>
              e in ms && (cfg.priorityOnly ==> AsciiLower(Trim(e.classification.priority)) == "high")
    ensures !cfg.priorityOnly ==> Candidates(ms, cfg) == ms
    ensures forall a, b :: ms == a + b ==> Candidates(ms, cfg) == Candidates(a, cfg) + Candidates(b, cfg)
    ensures cfg.maxMessages <= 0 || |Candidates(ms, cfg)| <= cfg.maxMessages ==>
              Selected(ms, cfg) == Candidates(ms, cfg)
    ensures 0 < cfg.maxMessages < |Candidates(ms, cfg)| ==> Truncates(ms, cfg)
  {
    hide Trim;
    FilterMembers(ms, IsHigh);
    forall a, b | ms == a + b
      ensures Candidates(ms, cfg) == Candidates(a, cfg) + Candidates(b, cfg)
    {
      FilterConcat(a, b, IsHigh);
    }
  }

  /** Whose group an entry is in; one without a label is Unknown. */
  lemma {:induction false} GroupExactly(es: seq<Entry>, l: string)
    ensures forall e :: e in WithLabel(es, l) <==>
              e in es && l == (if e.classification.category == "" then "Unknown" else e.classification.category)
  {
    FilterMembers(es, (e: Entry) => LabelOf(e) == l);
  }

  /** A group is a permutation of its messages, in order. */
  lemma {:induction false} GroupInOrder(es: seq<Entry>, l: string)
    ensures var g := StableSort(WithLabel(es, l), ShownBefore);
            && multiset(g) == multiset(WithLabel(es, l))
            && forall i, j :: 0 <= i < j < |g| ==> InOrder(g[i], g[j])
  {
    hide ShownBefore, InOrder, WithLabel, StableSort;
    var g := StableSort(WithLabel(es, l), ShownBefore);
    ShownBeforeWeak();
    StableSortCorrect(WithLabel(es, l), ShownBefore);
    forall i, j | 0 <= i < j < |g|
      ensures InOrder(g[i], g[j])
    {
      OrderExactly(g[i], g[j]);
    }
  }

  // ---------------------------------------------------------------------------
  // Top lists
  // ---------------------------------------------------------------------------

  /** Strings compare at the first difference; a proper prefix comes first. */
  lemma {:induction false} PrecedesExactly(a: string, b: string)
    ensures Ranking.Precedes(a, b) <==>
            || (a <= b && a != b)
            || exists i :: 0 <= i < |a| && i < |b| && a[..i] == b[..i] && a[i] < b[i]
  {
    if a != "" && b != "" {
      PrecedesExactly(a[1..], b[1..]);
      if a[0] == b[0] {
        assert a == [a[0]] + a[1..] && b == [b[0]] + b[1..];
        assert a <= b <==> a[1..] <= b[1..] by { PrefixTail(a, b); }
        if exists i :: 0 <= i < |a[1..]| && i < |b[1..]| && a[1..][..i] == b[1..][..i] && a[1..][i] < b[1..][i] {
          var i :| 0 <= i < |a[1..]| && i < |b[1..]| && a[1..][..i] == b[1..][..i] && a[1..][i] < b[1..][i];
          assert a[..i + 1] == [a[0]] + a[1..][..i] && b[..i + 1] == [b[0]] + b[1..][..i];
          assert a[i + 1] < b[i + 1];
        }
        if exists i :: 0 <= i < |a| && i < |b| && a[..i] == b[..i] && a[i] < b[i] {
          var i :| 0 <= i < |a| && i < |b| && a[..i] == b[..i] && a[i] < b[i];
          assert a[1..][..i - 1] == a[..i][1..] && b[1..][..i - 1] == b[..i][1..];
          assert a[1..][i - 1] < b[1..][i - 1];
        }
      } else {
        assert a[..0] == b[..0];
        forall i | 0 < i < |a| && i < |b|
          ensures a[..i] != b[..i]
        {
          assert a[..i][0] != b[..i][0];
        }
      }
    }
  }

  lemma {:induction false} PrefixTail(a: string, b: string)
    requires a != "" && b != "" && a[0] == b[0]
    ensures a <= b <==> a[1..] <= b[1..]
  {
    if a[1..] <= b[1..] {
      assert b[1..][..|a| - 1] == a[1..];
      assert b[..|a|] == [b[0]] + b[1..][..|a| - 1] && a == [a[0]] + a[1..];
    }
    if a <= b { assert b[1..][..|a| - 1] == a[1..]; }
  }

  /** Top lists go by count, and by name among equals; what is left out would come later. */
  lemma {:induction false} TopExactly(counts: map<string, nat>, n: nat)
    ensures var top := Ranking.Top(counts, n);
            && |top| == (if |counts| > n then n else |counts|)
            && (forall i, j :: 0 <= i < j < |top| ==>
                  top[i].n > top[j].n || (top[i].n == top[j].n && Ranking.Precedes(top[i].key, top[j].key)))
            && (forall c :: c in top ==> c.key in counts && c.n == counts[c.key])
            && (forall k, c :: k in counts && c in top && Ranking.Count(k, counts[k]) !in top ==>
                  c.n > counts[k] || (c.n == counts[k] && Ranking.Precedes(c.key, k)))
  {
    hide Ranking.Top, Ranking.Precedes;
    Ranking.TopIsGreatest(counts, n);
    var top := Ranking.Top(counts, n);
    forall k, c | k in counts && c in top && Ranking.Count(k, counts[k]) !in top
      ensures c.n > counts[k] || (c.n == counts[k] && Ranking.Precedes(c.key, k))
    {
      assert Ranking.Higher(c, Ranking.Count(k, counts[k]));
    }
    forall i, j | 0 <= i < j < |top|
      ensures top[i].n > top[j].n || (top[i].n == top[j].n && Ranking.Precedes(top[i].key, top[j].key))
    {
      assert Ranking.Higher(top[i], top[j]);
    }
  }

  /** A digest lists up to five names, each with its count in brackets. */
  lemma {:induction false} NamesListed(ms: seq<Message>, name: Message -> string)
    ensures var counts := Tally(ms, name);
            var top := Ranking.Top(counts, 5);
            && |TopNames(ms, name)| == |top| <= 5
            && forall i :: 0 <= i < |top| ==> TopNames(ms, name)[i] == top[i].key + " (" + Numeral(top[i].n) + ")"
  {
    hide Ranking.Top, Tally;
    Ranking.TopIsGreatest(Tally(ms, name), 5);
  }

  /** The accounts in the order they are first seen, each once. */
  lemma {:induction false} FirstSeenExactly(names: seq<string>)
    ensures var s := FirstSeen(names);
            && Distinct(s)
            && (forall l :: l in s <==> l in names)
            && (forall n :: 0 <= n <= |names| ==> FirstSeen(names[..n]) <= s)
  {
    FirstSeenMembers(names);
    if names == [] {
      assert forall n :: 0 <= n <= |names| ==> names[..n] == [];
    } else {
      var k := |names| - 1;
      FirstSeenExactly(names[..k]);
      forall n | 0 <= n <= |names|
        ensures FirstSeen(names[..n]) <= FirstSeen(names)
      {
        if n <= k { assert names[..k][..n] == names[..n]; } else { assert names[..n] == names; }
      }
    }
  }

  // ---------------------------------------------------------------------------
  // Figures
  // ---------------------------------------------------------------------------

  /** The figures of one account, by the messages and entries they count. */
  lemma {:induction false} AccountFigures(l: string, ms: seq<Message>, es: seq<Entry>, cs: seq<Classification>,
                                          errors: map<string, FetchPool.FetchError>, k: string)
    ensures var s := FinalAccount(l, ms, es, cs, errors);
            && s.account == l
            && s.fetched == Count(ms, (m: Message) => m.account == l)
            && s.read == Count(ms, (m: Message) => m.account == l && m.isRead)
            && s.unread == Count(ms, (m: Message) => m.account == l && !m.isRead)
            && s.classified == Count(es, (e: Entry) => Owner(e) == l && e.classification.key in KeySet(cs))
            && s.failed == Count(es, (e: Entry) => Owner(e) == l && e.classification.key !in KeySet(cs))
            && s.analysisFailed == Count(es, (e: Entry) => Owner(e) == l && e.classification.analysisError.Some?)
            && (k != "" ==> Get(s.countsByLabel, k) == Count(es, (e: Entry) => Owner(e) == l && LabelOf(e) == k))
            && (s.status == "error" <==> l in errors) && (s.status == "ok" <==> l !in errors)
            && s.error == (if l in errors then Some(errors[l]) else None)
  {
    hide Count, InGroup, Tally, KeySet, TopNames, LabelOf;
    GroupAligned(ms, AccountOf, Any, l, ms, (m: Message) => m.account == l);
    GroupAligned(ms, AccountOf, IsRead, l, ms, (m: Message) => m.account == l && m.isRead);
    GroupAligned(ms, AccountOf, IsUnread, l, ms, (m: Message) => m.account == l && !m.isRead);
    GroupAligned(es, EntryAccount, IsClassified(KeySet(cs)), l, es,
                 (e: Entry) => Owner(e) == l && e.classification.key in KeySet(cs));
    GroupAligned(es, EntryAccount, IsUnclassified(KeySet(cs)), l, es,
                 (e: Entry) => Owner(e) == l && e.classification.key !in KeySet(cs));
    GroupAligned(es, EntryAccount, HasAnalysisError, l, es,
                 (e: Entry) => Owner(e) == l && e.classification.analysisError.Some?);
    if k != "" { LabelFigure(es, l, k); }
  }

  /** The account an entry belongs to. */
  function Owner(e: Entry): string {
    e.classification.key.account
  }

  lemma {:induction false} LabelFigure(es: seq<Entry>, l: string, k: string)
    requires k != ""
    ensures Get(Tally(es, LabelIn(l)), k) == Count(es, (e: Entry) => Owner(e) == l && LabelOf(e) == k)
  {
    TallyExact(es, LabelIn(l), k, (e: Entry) => Owner(e) == l && LabelOf(e) == k);
  }

  /** The figures of a digest, by the messages and classifications they count. */
  lemma {:induction false} GlobalFigures(d: Digest, ms: seq<Message>, o: Outcome, results: seq<FetchPool.FetchResult>,
                                         errors: map<string, FetchPool.FetchError>, k: string)
    requires IsDigest(d, ms, o, results, errors)
    ensures var g, es := d.globalStats, d.messages;
            && d.totalFetched == g.fetched == |ms| && d.totalClassified == g.classified == |o.valid|
            && d.failedCount == g.failed == Count(es, (e: Entry) => e.classification.key !in KeySet(o.valid))
            && d.analysisFailedCount == g.analysisFailed
            && g.analysisFailed == Count(es, (e: Entry) => e.classification.analysisError.Some?)
            && g.read == Count(ms, (m: Message) => m.isRead) && g.unread == Count(ms, (m: Message) => !m.isRead)
            && g.highPriority == Count(es, (e: Entry) => e.classification.key in KeySet(o.valid)
                                                         && AsciiLower(e.classification.priority) == "high")
            && (k != "" ==> Get(g.countsByLabel, k) == Count(es, (e: Entry) => LabelOf(e) == k))
            && g.accountsFailed == |errors|
  {
    hide Count, InGroup, Tally, KeySet, TopNames, LabelOf, Entries, AccountsListed, FinalAccount, AsciiLower;
    var es := d.messages;
    var keys := KeySet(o.valid);
    CountAligned(es, IsUnclassified(keys), es, (e: Entry) => e.classification.key !in KeySet(o.valid));
    CountAligned(es, HasAnalysisError, es, (e: Entry) => e.classification.analysisError.Some?);
    CountAligned(ms, IsRead, ms, (m: Message) => m.isRead);
    CountAligned(ms, IsUnread, ms, (m: Message) => !m.isRead);
    CountAligned(es, IsUrgent(keys), es, (e: Entry) => e.classification.key in KeySet(o.valid)
                                                       && AsciiLower(e.classification.priority) == "high");
    if k != "" { TallyExact(es, LabelOf, k, (e: Entry) => LabelOf(e) == k); }
  }

  /** A message without a valid analysis is shown, under Unknown and behind all others. */
  lemma {:induction false} FailedShown(ms: seq<Message>, first: ResponseParser.Parsed, o: Outcome, i: nat,
                                       other: Entry)
    requires Accounted(MessageKeys(ms), first, o) && i < |ms| && ms[i].Key() !in KeySet(o.valid)
    ensures var e := Entries(ms, ClassMap(o.valid, o.failed, o.errors))[i];
            && LabelOf(e) == "Unknown" && e.classification.summary == "" && e.classification.priority == ""
            && (Priority(other) in ["high", "medium", "low"] ==> !ShownBefore(e, other))
  {
    hide ClassMap, Trim;
    var classes := ClassMap(o.valid, o.failed, o.errors);
    var c := ClassOf(ms[i].Key(), classes);
    FailedClass(first, MessageKeys(ms), o, ms[i].Key());
    assert Trim("") == "" by { TrimFixed(""); }
  }

  lemma {:induction false} FailedClass(first: ResponseParser.Parsed, keys: seq<MessageKey>, o: Outcome, k: MessageKey)
    requires Accounted(keys, first, o) && k !in KeySet(o.valid)
    ensures ClassOf(k, ClassMap(o.valid, o.failed, o.errors))
         == FailedClassification(k).(analysisError := ClassOf(k, ClassMap(o.valid, o.failed, o.errors)).analysisError)
  {
    hide Overridden, KeySet;
    var attached := WithErrors(o.failed, o.errors);
    OverriddenExact(map[], o.valid);
    OverriddenExact(Overridden(map[], o.valid), attached);
    WithErrorsKeys(o.failed, o.errors);
  }
}
