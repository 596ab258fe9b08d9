/**
  Which messages a digest shows, in what order, and how they are grouped by label.
 */
module Selection {
  import opened Text
  import opened Mail
  import opened Sorting
  import Ranking

  datatype Entry = Entry(
    subject: string, from: string, date: int, isRead: bool, classification: Classification, excerpt: string)

  datatype RenderConfig = RenderConfig(priorityOnly: bool, maxMessages: int)

  function PriorityRank(priority: string): nat {
    var p := ToLower(Trim(priority));
    if p == "high" then 0 else if p == "medium" then 1 else if p == "low" then 2 else 3
  }

  function EntryRank(e: Entry): nat {
    PriorityRank(e.classification.priority)
  }

  /** More urgent first, then more recent. */
  predicate ShownBefore(a: Entry, b: Entry) {
    EntryRank(a) < EntryRank(b) || (EntryRank(a) == EntryRank(b) && a.date > b.date)
  }

  lemma ShownBeforeWeak()
    ensures StrictWeak(ShownBefore)
  {
    hide EntryRank;
  }

  /** `strings.EqualFold` with "high". */
  predicate IsHigh(e: Entry) {
    AsciiLower(Trim(e.classification.priority)) == "high"
  }

  function Filter<T>(s: seq<T>, p: T -> bool): seq<T> {
    if s == [] then [] else Filter(s[..|s| - 1], p) + (if p(s[|s| - 1]) then [s[|s| - 1]] else [])
  }

  lemma {:induction false} FilterAppend<T>(s: seq<T>, x: T, p: T -> bool)
    ensures Filter(s + [x], p) == Filter(s, p) + (if p(x) then [x] else [])
  {
    assert (s + [x])[..|s|] == s;
  }

  // ---------------------------------------------------------------------------
  // Selection
  // ---------------------------------------------------------------------------

  function Candidates(ms: seq<Entry>, cfg: RenderConfig): seq<Entry> {
    if cfg.priorityOnly then Filter(ms, IsHigh) else ms
  }

  predicate Truncates(ms: seq<Entry>, cfg: RenderConfig) {
    cfg.maxMessages > 0 && |Candidates(ms, cfg)| > cfg.maxMessages
  }

  function Selected(ms: seq<Entry>, cfg: RenderConfig): seq<Entry> {
    if Truncates(ms, cfg) then StableSort(Candidates(ms, cfg), ShownBefore)[..cfg.maxMessages]
    else Candidates(ms, cfg)
  }

  /**
    The selection part of `Render`. Truncation sorts the slice it works on in place: a
    fresh one after priority filtering, otherwise the caller's own messages.
   */
  method Select(messages: array<Entry>, cfg: RenderConfig) returns (kept: seq<Entry>)
    modifies messages
    ensures kept == Selected(old(messages[..]), cfg)
    ensures messages[..] ==
            if Truncates(old(messages[..]), cfg) && !cfg.priorityOnly
            then StableSort(old(messages[..]), ShownBefore) else old(messages[..])
  {
    hide ShownBefore, IsHigh;
    ghost var ms := messages[..];
    var work := messages;
    if cfg.priorityOnly {
      var filtered := FilterHigh(messages[..]);
      work := new Entry[|filtered|](i requires 0 <= i < |filtered| => filtered[i]);
      assert work[..] == filtered;
    }
    assert work[..] == Candidates(ms, cfg);
    if cfg.maxMessages > 0 && work.Length > cfg.maxMessages {
      SliceStable(work, ShownBefore);
      kept := work[..cfg.maxMessages];
      assert kept == work[..][..cfg.maxMessages];
    } else {
      kept := work[..];
    }
  }

  method FilterHigh(ms: seq<Entry>) returns (high: seq<Entry>)
    ensures high == Filter(ms, IsHigh)
  {
    hide IsHigh;
    high := [];
    for i := 0 to |ms|
      invariant high == Filter(ms[..i], IsHigh)
    {
      assert ms[..i + 1] == ms[..i] + [ms[i]];
      FilterAppend(ms[..i], ms[i], IsHigh);
      if IsHigh(ms[i]) { high := high + [ms[i]]; }
    }
    assert ms[..|ms|] == ms;
  }

  /**
    Truncation keeps the best: exactly `maxMessages` are kept, kept and dropped messages
    together are the candidates, no dropped message should have been shown before a kept
    one, and of tied messages the earlier ones are kept, in their order.
   */
  lemma {:induction false} TruncationKeepsBest(ms: seq<Entry>, cfg: RenderConfig) returns (dropped: seq<Entry>)
    requires Truncates(ms, cfg)
    ensures |Selected(ms, cfg)| == cfg.maxMessages
    ensures multiset(Selected(ms, cfg)) + multiset(dropped) == multiset(Candidates(ms, cfg))
    ensures forall k, d :: k in Selected(ms, cfg) && d in dropped ==> !ShownBefore(d, k)
    ensures Sorted(Selected(ms, cfg), ShownBefore)
    ensures forall e :: TiedWith(Selected(ms, cfg) + dropped, ShownBefore, e)
                     == TiedWith(Candidates(ms, cfg), ShownBefore, e)
  {
    hide ShownBefore, IsHigh, StableSort;
    var cs := Candidates(ms, cfg);
    var sorted := StableSort(cs, ShownBefore);
    ShownBeforeWeak();
    StableSortCorrect(cs, ShownBefore);
    var kept := Selected(ms, cfg);
    dropped := sorted[cfg.maxMessages..];
    assert sorted == kept + dropped;
    forall k, d | k in kept && d in dropped
      ensures !ShownBefore(d, k)
    {
      var i :| 0 <= i < |kept| && kept[i] == k;
      var j :| 0 <= j < |dropped| && dropped[j] == d;
      assert sorted[i] == k && sorted[cfg.maxMessages + j] == d;
    }
  }

  /** The caller's slice keeps its messages, whatever happens to their order. */
  lemma {:induction false} SelectPermutes(ms: seq<Entry>)
    ensures multiset(StableSort(ms, ShownBefore)) == multiset(ms)
  {
    ShownBeforeWeak();
    StableSortCorrect(ms, ShownBefore);
  }

  // ---------------------------------------------------------------------------
  // Grouping
  // ---------------------------------------------------------------------------

  function LabelOf(e: Entry): string {
    if e.classification.category == "" then "Unknown" else e.classification.category
  }

  function Labels(es: seq<Entry>): set<string> {
    set e | e in es :: LabelOf(e)
  }

  function WithLabel(es: seq<Entry>, l: string): seq<Entry> {
    Filter(es, (e: Entry) => LabelOf(e) == l)
  }

  lemma {:induction false} WithLabelAppend(es: seq<Entry>, e: Entry, l: string)
    ensures WithLabel(es + [e], l) == WithLabel(es, l) + (if LabelOf(e) == l then [e] else [])
  {
    FilterAppend(es, e, (x: Entry) => LabelOf(x) == l);
  }

  lemma {:induction false} WithLabelEmpty(l: string)
    ensures WithLabel([], l) == []
  {
  }

  /** `groupByLabel`: every label's entries, stably sorted. */
  method GroupByLabel(es: seq<Entry>) returns (groups: map<string, seq<Entry>>)
    ensures groups.Keys == Labels(es)
    ensures forall l :: l in groups ==> groups[l] == StableSort(WithLabel(es, l), ShownBefore)
  {
    hide LabelOf, ShownBefore, WithLabel, StableSort;
    groups := map[];
    forall l ensures WithLabel([], l) == [] { WithLabelEmpty(l); }
    for i := 0 to |es|
      invariant groups.Keys == Labels(es[..i])
      invariant forall l :: l in groups ==> groups[l] == WithLabel(es[..i], l)
      invariant forall l :: l !in groups ==> WithLabel(es[..i], l) == []
    {
      var l := LabelOf(es[i]);
      assert es[..i + 1] == es[..i] + [es[i]];
      forall l' { WithLabelAppend(es[..i], es[i], l'); }
      groups := groups[l := (if l in groups then groups[l] else []) + [es[i]]];
    }
    assert es[..|es|] == es;
    var unsorted := groups;
    var rest := groups.Keys;
    while rest != {}
      invariant rest <= groups.Keys == unsorted.Keys
      invariant forall l :: l in rest ==> groups[l] == unsorted[l]
      invariant forall l :: l in groups && l !in rest ==> groups[l] == StableSort(unsorted[l], ShownBefore)
    {
      var l :| l in rest;
      var g := groups[l];
      var work := new Entry[|g|](i requires 0 <= i < |g| => g[i]);
      assert work[..] == g;
      SliceStable(work, ShownBefore);
      groups := groups[l := work[..]];
      rest := rest - {l};
    }
  }

  /** `sort.Strings` on the keys of a map: ascending, each once, whatever the iteration order. */
  method SortedLabels(labels: set<string>) returns (sorted: seq<string>)
    ensures forall l :: l in sorted <==> l in labels
    ensures forall i, j :: 0 <= i < j < |sorted| ==> Ranking.Precedes(sorted[i], sorted[j])
  {
    hide Ranking.Precedes;
    var items: seq<string> := [];
    var rest := labels;
    while rest != {}
      invariant rest <= labels
      invariant multiset(items) == multiset(labels - rest)
    {
      var l :| l in rest;
      assert labels - (rest - {l}) == (labels - rest) + {l};
      items, rest := items + [l], rest - {l};
    }
    assert labels - {} == labels;
    var work := new string[|items|](i requires 0 <= i < |items| => items[i]);
    assert work[..] == items;
    Ranking.PrecedesTotal();
    Slice(work, Ranking.Precedes);
    sorted := work[..];
    SetSorted(labels, sorted);
  }

  lemma {:induction false} SetSorted(labels: set<string>, sorted: seq<string>)
    requires Sorted(sorted, Ranking.Precedes) && multiset(sorted) == multiset(labels)
    ensures forall l :: l in sorted <==> l in labels
    ensures forall i, j :: 0 <= i < j < |sorted| ==> Ranking.Precedes(sorted[i], sorted[j])
  {
    hide Ranking.Precedes;
    Ranking.PrecedesTotal();
    assert forall l :: l in sorted <==> l in multiset(sorted);
    assert forall l :: l in multiset(labels) <==> l in labels;
    forall i, j | 0 <= i < j < |sorted|
      ensures Ranking.Precedes(sorted[i], sorted[j])
    {
      assert sorted == sorted[..j] + [sorted[j]] + sorted[j + 1..];
      assert multiset(sorted) == multiset(sorted[..j]) + multiset{sorted[j]} + multiset(sorted[j + 1..]);
      assert sorted[..j][i] in multiset(sorted[..j]);
      assert multiset(labels)[sorted[j]] <= 1;
    }
  }

  /** The groups in label order, one after the other. */
  function Concatenated(labels: seq<string>, groups: map<string, seq<Entry>>): seq<Entry>
    requires forall l :: l in labels ==> l in groups
  {
    if labels == [] then [] else groups[labels[0]] + Concatenated(labels[1..], groups)
  }

  function OfLabels(es: seq<Entry>, labels: set<string>): seq<Entry> {
    Filter(es, (e: Entry) => LabelOf(e) in labels)
  }

  lemma {:induction false} SplitByLabel(es: seq<Entry>, l: string, labels: set<string>)
    requires l !in labels
    ensures multiset(OfLabels(es, {l} + labels)) == multiset(WithLabel(es, l)) + multiset(OfLabels(es, labels))
  {
    hide LabelOf;
    if es != [] {
      SplitByLabel(es[..|es| - 1], l, labels);
    }
  }

  lemma {:induction false} OfAllLabels(es: seq<Entry>, labels: set<string>)
    requires Labels(es) <= labels
    ensures OfLabels(es, labels) == es
  {
    hide LabelOf;
    if es != [] {
      var init, e := es[..|es| - 1], es[|es| - 1];
      assert es == init + [e] && e in es && LabelOf(e) in Labels(es);
      assert Labels(init) <= Labels(es);
      OfAllLabels(init, labels);
    }
  }

  lemma {:induction false} OfNoLabels(es: seq<Entry>)
    ensures OfLabels(es, {}) == []
  {
    if es != [] { OfNoLabels(es[..|es| - 1]); }
  }

  lemma {:induction false} ConcatenatedMultiset(es: seq<Entry>, labels: seq<string>, groups: map<string, seq<Entry>>)
    requires Distinct(labels) && forall l :: l in labels ==> l in groups
    requires forall l :: l in groups ==> groups[l] == StableSort(WithLabel(es, l), ShownBefore)
    ensures multiset(Concatenated(labels, groups)) == multiset(OfLabels(es, set l | l in labels))
  {
    hide LabelOf, ShownBefore, WithLabel, OfLabels, StableSort;
    if labels == [] {
      OfNoLabels(es);
      assert (set l | l in labels) == {};
    } else {
      var l, rest := labels[0], set l | l in labels[1..];
      assert Distinct(labels[1..]);
      assert l !in rest;
      ConcatenatedMultiset(es, labels[1..], groups);
      SplitByLabel(es, l, rest);
      ShownBeforeWeak();
      StableSortCorrect(WithLabel(es, l), ShownBefore);
      assert (set l | l in labels) == {l} + rest by { assert labels == [labels[0]] + labels[1..]; }
    }
  }

  /**
    Grouping loses nothing and invents nothing: one after the other, the groups in any
    duplicate-free order of their labels are a permutation of the messages.
   */
  lemma {:induction false} GroupsPartition(es: seq<Entry>, labels: seq<string>, groups: map<string, seq<Entry>>)
    requires groups.Keys == Labels(es)
    requires forall l :: l in groups ==> groups[l] == StableSort(WithLabel(es, l), ShownBefore)
    requires Distinct(labels) && forall l :: l in labels <==> l in groups
    ensures multiset(Concatenated(labels, groups)) == multiset(es)
  {
    hide LabelOf, ShownBefore, WithLabel, OfLabels, StableSort;
    ConcatenatedMultiset(es, labels, groups);
    assert (set l | l in labels) == Labels(es);
    OfAllLabels(es, Labels(es));
  }

  /** `labelCounts`: one row per label, in ascending order of the labels. */
  method LabelCounts(counts: map<string, nat>) returns (rows: seq<(string, nat)>)
    ensures forall r :: r in rows <==> r.0 in counts && r.1 == counts[r.0]
    ensures forall i, j :: 0 <= i < j < |rows| ==> Ranking.Precedes(rows[i].0, rows[j].0)
  {
    hide Ranking.Precedes;
    var labels := SortedLabels(counts.Keys);
    rows := [];
    for i := 0 to |labels|
      invariant |rows| == i && forall k :: 0 <= k < i ==> rows[k] == (labels[k], counts[labels[k]])
    {
      assert labels[i] in labels;
      rows := rows + [(labels[i], counts[labels[i]])];
    }
    forall r
      ensures r in rows <==> r.0 in counts && r.1 == counts[r.0]
    {
      if r.0 in counts && r.1 == counts[r.0] {
        var k :| 0 <= k < |labels| && labels[k] == r.0;
        assert rows[k] == (r.0, r.1) == r;
      }
    }
  }
}
