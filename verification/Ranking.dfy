/**
  `topN`: the most frequent senders and domains, independent of map iteration order and
  of what the unstable sort does with its input.
 */
module Ranking {
  import opened Decimal
  import opened Sorting

  /** Order of Go strings: by code point, which for UTF-8 is the order by byte. */
  predicate Precedes(a: string, b: string) {
    b != "" && (a == "" || a[0] < b[0] || (a[0] == b[0] && Precedes(a[1..], b[1..])))
  }

  lemma {:induction false} PrecedesIrreflexive(a: string)
    ensures !Precedes(a, a)
  {
    if a != "" { PrecedesIrreflexive(a[1..]); }
  }

  lemma {:induction false} PrecedesTransitive(a: string, b: string, c: string)
    requires Precedes(a, b) && Precedes(b, c)
    ensures Precedes(a, c)
  {
    if a != "" && a[0] == b[0] == c[0] { PrecedesTransitive(a[1..], b[1..], c[1..]); }
  }

  lemma {:induction false} PrecedesConnected(a: string, b: string)
    ensures a == b || Precedes(a, b) || Precedes(b, a)
  {
    if a != "" && b != "" && a[0] == b[0] {
      PrecedesConnected(a[1..], b[1..]);
      assert a == [a[0]] + a[1..] && b == [b[0]] + b[1..];
    }
  }

  lemma PrecedesTotal()
    ensures StrictTotal(Precedes)
  {
    forall a ensures !Precedes(a, a) { PrecedesIrreflexive(a); }
    forall a, b, c | Precedes(a, b) && Precedes(b, c) ensures Precedes(a, c) { PrecedesTransitive(a, b, c); }
    forall a, b | a != b ensures Precedes(a, b) || Precedes(b, a) { PrecedesConnected(a, b); }
    TotalOrder(Precedes);
  }

  datatype Count = Count(key: string, n: nat)

  /** Higher count first, then the smaller key. */
  predicate Higher(a: Count, b: Count) {
    a.n > b.n || (a.n == b.n && Precedes(a.key, b.key))
  }

  lemma HigherTotal()
    ensures StrictTotal(Higher)
  {
    hide Precedes;
    PrecedesTotal();
    TotalOrder(Higher);
  }

  function Entries(counts: map<string, nat>): set<Count> {
    set k | k in counts :: Count(k, counts[k])
  }

  ghost predicate IsRanking(counts: map<string, nat>, s: seq<Count>) {
    Sorted(s, Higher) && multiset(s) == multiset(Entries(counts))
  }

  lemma {:induction false} SeqOfSet<T>(s: set<T>) returns (r: seq<T>)
    ensures multiset(r) == multiset(s)
  {
    r := [];
    var rest := s;
    while rest != {}
      invariant multiset(r) + multiset(rest) == multiset(s)
    {
      var x :| x in rest;
      assert multiset(rest) == multiset(rest - {x}) + multiset{x};
      r, rest := r + [x], rest - {x};
    }
  }

  lemma {:induction false} RankingExists(counts: map<string, nat>)
    ensures exists s :: IsRanking(counts, s)
  {
    var r := SeqOfSet(Entries(counts));
    HigherTotal();
    StableSortCorrect(r, Higher);
    assert IsRanking(counts, StableSort(r, Higher));
  }

  /** All entries, highest first. */
  ghost function Ranked(counts: map<string, nat>): (s: seq<Count>)
    ensures IsRanking(counts, s)
  {
    RankingExists(counts);
    var s :| IsRanking(counts, s);
    s
  }

  /** There is only one ranking of a map, whatever order its entries come in. */
  lemma {:induction false} RankingUnique(counts: map<string, nat>, s: seq<Count>)
    requires IsRanking(counts, s)
    ensures s == Ranked(counts)
  {
    HigherTotal();
    SortedDetermined(s, Ranked(counts), Higher);
  }

  ghost function Top(counts: map<string, nat>, n: nat): seq<Count> {
    var s := Ranked(counts);
    if |s| > n then s[..n] else s
  }

  function CountText(c: Count): string {
    c.key + " (" + Numeral(c.n) + ")"
  }

  function CountTexts(cs: seq<Count>): (r: seq<string>)
    ensures |r| == |cs| && forall i :: 0 <= i < |r| ==> r[i] == CountText(cs[i])
  {
    seq(|cs|, i requires 0 <= i < |cs| => CountText(cs[i]))
  }

  /** The map iteration of the program: entries in whatever order the map yields its keys. */
  method Collect(counts: map<string, nat>) returns (items: seq<Count>)
    ensures multiset(items) == multiset(Entries(counts))
  {
    items := [];
    var rest := counts.Keys;
    while rest != {}
      invariant rest <= counts.Keys
      invariant multiset(items) == multiset(set k | k in counts && k !in rest :: Count(k, counts[k]))
    {
      var k :| k in rest;
      ghost var done := set k' | k' in counts && k' !in rest :: Count(k', counts[k']);
      assert (set k' | k' in counts && k' !in rest - {k} :: Count(k', counts[k'])) == done + {Count(k, counts[k])};
      assert Count(k, counts[k]) !in done;
      items, rest := items + [Count(k, counts[k])], rest - {k};
    }
    assert (set k | k in counts && k !in {} :: Count(k, counts[k])) == Entries(counts);
  }

  method TopN(counts: map<string, nat>, n: nat) returns (result: seq<string>)
    ensures result == CountTexts(Top(counts, n))
  {
    hide Higher, Sorted, Numeral;
    var items := Collect(counts);
    var sorted := new Count[|items|](i requires 0 <= i < |items| => items[i]);
    assert sorted[..] == items;
    HigherTotal();
    Slice(sorted, Higher);
    RankingUnique(counts, sorted[..]);
    var top := sorted[..];
    if |top| > n { top := top[..n]; }
    result := [];
    for i := 0 to |top|
      invariant |result| == i && forall k :: 0 <= k < i ==> result[k] == CountText(top[k])
    {
      result := result + [top[i].key + " (" + Numeral(top[i].n) + ")"];
    }
  }

  lemma {:induction false} EntryMembers(counts: map<string, nat>)
    ensures forall c :: c in Entries(counts) <==> c.key in counts && c.n == counts[c.key]
  {
    forall c
      ensures c in Entries(counts) <==> c.key in counts && c.n == counts[c.key]
    {
      assert c == Count(c.key, c.n);
    }
  }

  lemma {:induction false} RankedMembers(counts: map<string, nat>)
    ensures forall c :: c in Ranked(counts) <==> c.key in counts && c.n == counts[c.key]
  {
    var s := Ranked(counts);
    EntryMembers(counts);
    assert forall c :: c in s <==> c in multiset(s);
    assert forall c :: c in multiset(Entries(counts)) <==> c in Entries(counts);
  }

  lemma {:induction false} RankedStrictly(counts: map<string, nat>)
    ensures var s := Ranked(counts);
            |s| == |counts| && forall i, j :: 0 <= i < j < |s| ==> Higher(s[i], s[j])
  {
    hide Higher;
    var s := Ranked(counts);
    HigherTotal();
    EntriesSize(counts);
    assert |s| == |multiset(s)| == |Entries(counts)|;
    forall i, j | 0 <= i < j < |s|
      ensures Higher(s[i], s[j])
    {
      RankedDistinct(counts, i, j);
    }
  }

  /** The result lists the greatest entries of the map, as many as asked for, in order. */
  lemma {:induction false} TopIsGreatest(counts: map<string, nat>, n: nat)
    ensures |Top(counts, n)| == if |counts| > n then n else |counts|
    ensures forall i, j :: 0 <= i < j < |Top(counts, n)| ==> Higher(Top(counts, n)[i], Top(counts, n)[j])
    ensures forall c :: c in Top(counts, n) ==> c.key in counts && c.n == counts[c.key]
    ensures forall k, c :: k in counts && c in Top(counts, n) && Count(k, counts[k]) !in Top(counts, n) ==>
              Higher(c, Count(k, counts[k]))
  {
    hide Higher, Ranked, IsRanking;
    var s, top := Ranked(counts), Top(counts, n);
    RankedMembers(counts);
    RankedStrictly(counts);
    assert forall i :: 0 <= i < |top| ==> top[i] == s[i] && s[i] in s;
    forall k, c | k in counts && c in top && Count(k, counts[k]) !in top
      ensures Higher(c, Count(k, counts[k]))
    {
      assert Count(k, counts[k]) in s;
      var j :| 0 <= j < |s| && s[j] == Count(k, counts[k]);
      var i :| 0 <= i < |top| && top[i] == c;
      assert j < |top| ==> top[j] == s[j];
    }
  }

  lemma {:induction false} RankedDistinct(counts: map<string, nat>, i: nat, j: nat)
    requires i < j < |Ranked(counts)|
    ensures Ranked(counts)[i] != Ranked(counts)[j]
  {
    var s := Ranked(counts);
    assert multiset(s)[s[i]] == multiset(Entries(counts))[s[i]] <= 1;
    assert s == s[..j] + [s[j]] + s[j + 1..];
    assert s[..j][i] == s[i];
    assert multiset(s) == multiset(s[..j]) + multiset{s[j]} + multiset(s[j + 1..]);
    assert s[i] in multiset(s[..j]);
  }

  lemma {:induction false} EntriesSize(counts: map<string, nat>)
    ensures |Entries(counts)| == |counts|
    decreases |counts|
  {
    if counts == map[] {
      assert Entries(counts) == {};
    } else {
      var k :| k in counts;
      var rest := counts - {k};
      EntryMembers(counts);
      EntryMembers(rest);
      assert Entries(counts) == Entries(rest) + {Count(k, counts[k])};
      assert counts == rest[k := counts[k]];
      EntriesSize(rest);
    }
  }
}
